/**
 The Telnet side of a port: the option policy, the IAC parser that every received byte goes
 through, and the loop that drains a socket into the receive ring.
 */
module Telnet {
  import opened Powers
  import opened Ring
  import opened TxPath

  const IAC: byte := 0xFF
  const DONT: byte := 0xFE
  const DO: byte := 0xFD
  const WONT: byte := 0xFC
  const WILL: byte := 0xFB
  const SB: byte := 0xFA
  const SE: byte := 0xF0

  const BINARY: byte := 0x00
  const ECHO: byte := 0x01
  const SGA: byte := 0x03
  const TTYPE: byte := 0x18
  const NAWS: byte := 0x1F

  // ---- Options ----

  /** The five negotiation flags of a connection. */
  datatype Flags = Flags(binary: bool, echo: bool, sga: bool, naws: bool, ttype: bool)

  const NO_FLAGS: Flags := Flags(false, false, false, false, false)

  /** IAC SB TTYPE SEND IAC SE. */
  const TTYPE_REQUEST: seq<byte> := [IAC, SB, TTYPE, 1, IAC, SE]

  function Response(cmd: byte, opt: byte): seq<byte>
  {
    [IAC, cmd, opt]
  }

  /** What telnet_on_connect sends, in two batches. */
  const OFFERS: seq<byte> :=
    (Response(WILL, BINARY) + Response(DO, BINARY) + Response(WILL, ECHO) + Response(WILL, SGA) + Response(DO, SGA))
    + (Response(DO, NAWS) + Response(DO, TTYPE))

  function OnDo(f: Flags, opt: byte): (Flags, seq<byte>)
  {
    if opt == BINARY then (if f.binary then (f, []) else (f.(binary := true), Response(WILL, opt)))
    else if opt == ECHO then (if f.echo then (f, []) else (f.(echo := true), Response(WILL, opt)))
    else if opt == SGA then (if f.sga then (f, []) else (f.(sga := true), Response(WILL, opt)))
    else (f, Response(WONT, opt))
  }

  function OnWill(f: Flags, opt: byte): (Flags, seq<byte>)
  {
    if opt == BINARY then (if f.binary then (f, []) else (f.(binary := true), Response(DO, opt)))
    else if opt == SGA then (if f.sga then (f, []) else (f.(sga := true), Response(DO, opt)))
    else if opt == NAWS then (if f.naws then (f, []) else (f.(naws := true), Response(DO, opt)))
    else if opt == TTYPE then (if f.ttype then (f, []) else (f.(ttype := true), TTYPE_REQUEST))
    else (f, Response(DONT, opt))
  }

  /** telnet_handle_option: the new flags and what is sent back. */
  function OnOption(f: Flags, cmd: byte, opt: byte): (Flags, seq<byte>)
  {
    if cmd == DO then OnDo(f, opt) else if cmd == WILL then OnWill(f, opt) else (f, [])
  }

  /** The flag that stands for an option: 0 BINARY, 1 ECHO, 3 SGA, 31 NAWS, 24 TERMINAL-TYPE. */
  predicate Flagged(f: Flags, opt: byte)
  {
    match opt
    case 0 => f.binary
    case 1 => f.echo
    case 3 => f.sga
    case 31 => f.naws
    case 24 => f.ttype
    case _ => false
  }

  /** DO (FDh) of these, or WILL (FBh) of those, is agreed to. */
  predicate Agreeable(cmd: byte, opt: byte)
  {
    (cmd == 0xFD && opt in {0, 1, 3}) || (cmd == 0xFB && opt in {0, 3, 31, 24})
  }

  /** The policy: an agreeable option is agreed to once, with WILL for DO and DO for WILL, where the
      terminal type is asked for at once; the repetition of one is ignored, like WONT and DONT;
      everything else is refused, with WONT (FCh) for DO and DONT (FEh) for WILL. */
  lemma PolicyExact(f: Flags, cmd: byte, opt: byte)
    ensures var (g, sent) := OnOption(f, cmd, opt);
      var agreed := Agreeable(cmd, opt) && !Flagged(f, opt);
      (forall o: byte :: Flagged(g, o) <==> Flagged(f, o) || (agreed && o == opt)) &&
      sent ==
        if agreed then (if cmd == 0xFD then [0xFF, 0xFB, opt] else if opt == 24 then [0xFF, 0xFA, 24, 1, 0xFF, 0xF0] else [0xFF, 0xFD, opt])
        else if Agreeable(cmd, opt) || (cmd != 0xFD && cmd != 0xFB) then []
        else [0xFF, if cmd == 0xFD then 0xFC else 0xFE, opt]
  {
  }

  // ---- The parser, on values ----

  datatype IacState = Normal | SawFf | SawCmd | InSb | SbIac

  datatype Parser = Parser(
    state: IacState, cmd: byte, flags: Flags, sbOpt: byte, sbBuf: seq<byte>, sbLen: byte,
    cols: int, rows: int, ttype: seq<byte>)

  predicate IsParser(p: Parser)
  {
    |p.sbBuf| == 8 && |p.ttype| == 41
  }

  /** A byte of subnegotiation content; the length counter wraps at 256. */
  function SbByte(p: Parser, b: byte): (q: Parser)
    requires IsParser(p)
    ensures IsParser(q)
  {
    var stored :=
      if p.sbLen == 0 then p.(sbOpt := b)
      else if p.sbOpt == TTYPE && p.sbLen >= 2 then
        (if p.sbLen - 2 < 40 then p.(ttype := p.ttype[p.sbLen - 2 := b]) else p)
      else if p.sbLen <= 8 then p.(sbBuf := p.sbBuf[p.sbLen - 1 := b])
      else p;
    stored.(sbLen := (p.sbLen + 1) % 256)
  }

  function Word16(hi: int, lo: int): int
  {
    hi * 256 + lo
  }

  /** The end of a subnegotiation. */
  function SbEnd(p: Parser): (q: Parser)
    requires IsParser(p)
    ensures IsParser(q)
  {
    var done := p.(state := Normal);
    if p.sbOpt == TTYPE && p.sbLen > 2 then
      var tlen := if p.sbLen - 2 > 40 then 40 else p.sbLen - 2;
      done.(ttype := p.ttype[tlen := 0])
    else if p.sbOpt == NAWS && p.sbLen >= 5 then
      done.(cols := Word16(p.sbBuf[0], p.sbBuf[1]), rows := Word16(p.sbBuf[2], p.sbBuf[3]))
    else done
  }

  /** What one byte does: the new state, the data byte or -1, and what is sent back. */
  datatype Filtered = Filtered(p: Parser, r: int, sent: seq<byte>)

  /** telnet_filter. */
  function Step(p: Parser, b: byte): (f: Filtered)
    requires IsParser(p)
    ensures IsParser(f.p) && -1 <= f.r < 256
  {
    match p.state
    case Normal => if b == IAC then Filtered(p.(state := SawFf), -1, []) else Filtered(p, b, [])
    case SawFf =>
      if b == IAC then Filtered(p.(state := Normal), 0xFF, [])
      else if b == WILL || b == WONT || b == DO || b == DONT then Filtered(p.(cmd := b, state := SawCmd), -1, [])
      else if b == SB then Filtered(p.(sbLen := 0, sbOpt := 0, state := InSb), -1, [])
      else Filtered(p.(state := Normal), -1, [])
    case SawCmd =>
      var (f, reply) := OnOption(p.flags, p.cmd, b);
      Filtered(p.(flags := f, state := Normal), -1, reply)
    case InSb => Filtered(if b == IAC then p.(state := SbIac) else SbByte(p, b), -1, [])
    case SbIac => Filtered(if b == SE then SbEnd(p) else p.(state := InSb), -1, [])
  }

  function DataOf(r: int): seq<byte>
    requires -1 <= r < 256
  {
    if r >= 0 then [r] else []
  }

  /** What a stream does: the new state, the data, and what is sent back. */
  datatype Fed = Fed(p: Parser, data: seq<byte>, sent: seq<byte>)

  function Feed(p: Parser, s: seq<byte>): (f: Fed)
    requires IsParser(p)
    ensures IsParser(f.p) && |f.data| <= |s|
    decreases |s|
  {
    if s == [] then Fed(p, [], [])
    else
      var q := Step(p, s[0]);
      var rest := Feed(q.p, s[1..]);
      Fed(rest.p, DataOf(q.r) + rest.data, q.sent + rest.sent)
  }

  /** How the stream is cut into chunks does not matter. */
  lemma {:induction false} FeedConcat(p: Parser, a: seq<byte>, b: seq<byte>)
    requires IsParser(p)
    ensures var f := Feed(p, a);
      var g := Feed(f.p, b);
      Feed(p, a + b) == Fed(g.p, f.data + g.data, f.sent + g.sent)
    decreases |a|
  {
    hide Step;
    if a == [] {
      assert a + b == b;
    } else {
      assert (a + b)[1..] == a[1..] + b;
      var q := Step(p, a[0]);
      FeedConcat(q.p, a[1..], b);
      var f, g := Feed(q.p, a[1..]), Feed(p, a);
      var last := Feed(g.p, b);
      assert DataOf(q.r) + (f.data + last.data) == g.data + last.data;
      assert q.sent + (f.sent + last.sent) == g.sent + last.sent;
    }
  }

  // ---- Transparency ----

  /** Inside a subnegotiation: a plain byte, or IAC and anything but SE. */
  datatype Inner = Plain(b: byte) | Pair(x: byte)

  /** What a well-formed sender puts on the wire. */
  datatype Item =
    | Data(b: byte)
    | Option(cmd: byte, opt: byte)
    | Sub(body: seq<Inner>)
    | Other(code: byte)

  predicate IsInner(i: Inner)
  {
    if i.Plain? then i.b != IAC else i.x != SE
  }

  predicate IsItem(i: Item)
  {
    match i
    case Data(_) => true
    case Option(cmd, _) => WILL <= cmd <= DONT
    case Sub(body) => forall k :: 0 <= k < |body| ==> IsInner(body[k])
    case Other(code) => code < SB
  }

  function InnerWire(body: seq<Inner>): seq<byte>
    decreases |body|
  {
    if body == [] then []
    else (if body[0].Plain? then [body[0].b] else [IAC, body[0].x]) + InnerWire(body[1..])
  }

  function Wire(i: Item): seq<byte>
  {
    match i
    case Data(b) => if b == IAC then [IAC, IAC] else [b]
    case Option(cmd, opt) => [IAC, cmd, opt]
    case Sub(body) => [IAC, SB] + InnerWire(body) + [IAC, SE]
    case Other(code) => [IAC, code]
  }

  function Wires(items: seq<Item>): seq<byte>
    decreases |items|
  {
    if items == [] then [] else Wire(items[0]) + Wires(items[1..])
  }

  /** The user data of a stream of items. */
  function UserData(items: seq<Item>): seq<byte>
    decreases |items|
  {
    if items == [] then []
    else (if items[0].Data? then [items[0].b] else []) + UserData(items[1..])
  }

  lemma FeedOne(p: Parser, b: byte)
    requires IsParser(p)
    ensures var q := Step(p, b);
      Feed(p, [b]) == Fed(q.p, DataOf(q.r), q.sent)
  {
    hide Step;
    var q := Step(p, b);
    assert [b][1..] == [];
    assert Feed(q.p, []) == Fed(q.p, [], []);
    assert DataOf(q.r) + [] == DataOf(q.r) && q.sent + [] == q.sent;
  }

  lemma FeedTwo(p: Parser, a: byte, b: byte)
    requires IsParser(p)
    ensures var q := Step(p, a);
      var r := Step(q.p, b);
      Feed(p, [a, b]) == Fed(r.p, DataOf(q.r) + DataOf(r.r), q.sent + r.sent)
  {
    hide Step;
    FeedOne(p, a);
    FeedOne(Step(p, a).p, b);
    FeedConcat(p, [a], [b]);
    assert [a] + [b] == [a, b];
  }

  function AbsorbOne(p: Parser, i: Inner): (q: Parser)
    requires IsParser(p)
    ensures IsParser(q)
  {
    if i.Plain? then SbByte(p, i.b) else p
  }

  /** What subnegotiation content does to the parser: pairs are dropped. */
  function Absorb(p: Parser, body: seq<Inner>): (q: Parser)
    requires IsParser(p)
    ensures IsParser(q)
    decreases |body|
  {
    if body == [] then p else Absorb(AbsorbOne(p, body[0]), body[1..])
  }

  lemma AbsorbCons(p: Parser, i: Inner, rest: seq<Inner>)
    requires IsParser(p)
    ensures Absorb(p, [i] + rest) == Absorb(AbsorbOne(p, i), rest)
  {
    hide AbsorbOne;
    assert ([i] + rest)[1..] == rest;
  }

  /** The content of a subnegotiation yields no data and leaves the parser inside it. */
  lemma {:induction false} FeedInner(p: Parser, body: seq<Inner>)
    requires IsParser(p) && p.state == InSb
    requires forall k :: 0 <= k < |body| ==> IsInner(body[k])
    ensures Feed(p, InnerWire(body)) == Fed(Absorb(p, body), [], []) && Absorb(p, body).state == InSb
    decreases |body|
  {
    if body != [] {
      var i := body[0];
      assert IsInner(i);
      var w := if i.Plain? then [i.b] else [IAC, i.x];
      if i.Plain? {
        FeedOne(p, i.b);
      } else {
        FeedTwo(p, IAC, i.x);
      }
      FeedConcat(p, w, InnerWire(body[1..]));
      hide Step, Feed;
      FeedInner(Feed(p, w).p, body[1..]);
    }
  }

  lemma FeedOption(p: Parser, cmd: byte, opt: byte)
    requires IsParser(p) && p.state == Normal && WILL <= cmd <= DONT
    ensures var f := Feed(p, [IAC, cmd, opt]);
      f.p == p.(cmd := cmd, flags := OnOption(p.flags, cmd, opt).0) &&
      f.data == [] && f.sent == OnOption(p.flags, cmd, opt).1
  {
    hide Feed, OnOption;
    FeedTwo(p, IAC, cmd);
    FeedOne(p.(cmd := cmd, state := SawCmd), opt);
    FeedConcat(p, [IAC, cmd], [opt]);
    assert [IAC, cmd] + [opt] == [IAC, cmd, opt];
  }

  /** A subnegotiation only has the effect its content and its end have. */
  lemma FeedSub(p: Parser, body: seq<Inner>)
    requires IsParser(p) && p.state == Normal && IsItem(Sub(body))
    ensures var f := Feed(p, Wire(Sub(body)));
      f == Fed(SbEnd(Absorb(p.(sbLen := 0, sbOpt := 0, state := InSb), body).(state := SbIac)), [], [])
  {
    hide Feed, SbEnd, SbByte;
    FeedTwo(p, IAC, SB);
    var q := p.(sbLen := 0, sbOpt := 0, state := InSb);
    FeedInner(q, body);
    var r := Feed(q, InnerWire(body)).p;
    FeedTwo(r, IAC, SE);
    hide Step;
    FeedConcat(p, [IAC, SB], InnerWire(body));
    FeedConcat(p, [IAC, SB] + InnerWire(body), [IAC, SE]);
  }

  lemma FeedItem(p: Parser, i: Item)
    requires IsParser(p) && p.state == Normal && IsItem(i)
    ensures Feed(p, Wire(i)).p.state == Normal
    ensures Feed(p, Wire(i)).data == if i.Data? then [i.b] else []
  {
    hide Feed, OnOption, SbByte;
    match i
    case Data(b) =>
      if b == IAC {
        FeedTwo(p, IAC, IAC);
      } else {
        FeedOne(p, b);
      }
    case Option(cmd, opt) => FeedOption(p, cmd, opt);
    case Sub(body) => FeedSub(p, body);
    case Other(code) => FeedTwo(p, IAC, code);
  }

  /** For any interleaving of escaped data and complete commands the parser yields exactly
      the data and ends where it began, ready for data. */
  lemma {:induction false} Transparent(p: Parser, items: seq<Item>)
    requires IsParser(p) && p.state == Normal
    requires forall k :: 0 <= k < |items| ==> IsItem(items[k])
    ensures Feed(p, Wires(items)).data == UserData(items) && Feed(p, Wires(items)).p.state == Normal
    decreases |items|
  {
    if items == [] {
    } else {
      assert IsItem(items[0]);
      hide Feed, Step, IsItem;
      FeedItem(p, items[0]);
      Transparent(Feed(p, Wire(items[0])).p, items[1..]);
      FeedConcat(p, Wire(items[0]), Wires(items[1..]));
    }
  }

  lemma EscapedByte(p: Parser, b: byte)
    requires IsParser(p) && p.state == Normal
    ensures Feed(p, Escape([b])) == Fed(p, [b], [])
  {
    EscapeOne(b);
    if b == IAC {
      FeedTwo(p, IAC, IAC);
    } else {
      FeedOne(p, b);
    }
  }

  /** What the transmit path escapes, the parser of the other end gives back. */
  lemma {:induction false} EscapedArrives(p: Parser, s: seq<byte>)
    requires IsParser(p) && p.state == Normal
    ensures Feed(p, Escape(s)) == Fed(p, s, [])
    decreases |s|
  {
    if s != [] {
      EscapedByte(p, s[0]);
      EscapedArrives(p, s[1..]);
      EscapeConcat([s[0]], s[1..]);
      hide Feed, Escape;
      FeedConcat(p, Escape([s[0]]), Escape(s[1..]));
      assert s == [s[0]] + s[1..];
    }
  }

  // ---- Window size and terminal type ----

  function Quoted(v: byte): Inner
  {
    if v == IAC then Pair(IAC) else Plain(v)
  }

  /** The values of a window size report with 0xFF doubled (RFC 1073). */
  function Quotes(vs: seq<byte>): (i: seq<Inner>)
    ensures |i| == |vs|
  {
    seq(|vs|, k requires 0 <= k < |vs| => Quoted(vs[k]))
  }

  function Plains(s: seq<byte>): (i: seq<Inner>)
    ensures |i| == |s|
  {
    seq(|s|, k requires 0 <= k < |s| => Plain(s[k]))
  }

  /** The values that are not dropped. */
  function Kept(vs: seq<byte>): seq<byte>
    decreases |vs|
  {
    if vs == [] then [] else (if vs[0] == IAC then [] else [vs[0]]) + Kept(vs[1..])
  }

  lemma {:induction false} KeptAll(vs: seq<byte>)
    ensures |Kept(vs)| <= |vs| && IAC !in Kept(vs)
    ensures |Kept(vs)| == |vs| <==> IAC !in vs
    ensures IAC !in vs ==> Kept(vs) == vs
    decreases |vs|
  {
    if vs != [] {
      KeptAll(vs[1..]);
      assert vs == [vs[0]] + vs[1..];
    }
  }

  lemma PlainsCons(b: byte, vs: seq<byte>)
    ensures Plains([b] + vs) == [Plain(b)] + Plains(vs)
  {
  }

  /** A parser takes quoted values as it takes those among them that are not 0xFF. */
  lemma {:induction false} AbsorbQuotes(p: Parser, vs: seq<byte>)
    requires IsParser(p)
    ensures Absorb(p, Quotes(vs)) == Absorb(p, Plains(Kept(vs)))
    decreases |vs|
  {
    hide AbsorbOne, Absorb, Plains, IsParser;
    if vs == [] {
      assert Quotes(vs) == [] && Plains(Kept(vs)) == [];
    } else {
      var p1 := AbsorbOne(p, Quoted(vs[0]));
      AbsorbCons(p, Quoted(vs[0]), Quotes(vs[1..]));
      assert Quotes(vs) == [Quoted(vs[0])] + Quotes(vs[1..]);
      AbsorbQuotes(p1, vs[1..]);
      if vs[0] == IAC {
        AbsorbPair(p, IAC);
        assert Kept(vs) == Kept(vs[1..]);
      } else {
        PlainsCons(vs[0], Kept(vs[1..]));
        AbsorbCons(p, Plain(vs[0]), Plains(Kept(vs[1..])));
      }
    }
  }

  lemma AbsorbPair(p: Parser, x: byte)
    requires IsParser(p)
    ensures AbsorbOne(p, Pair(x)) == p
  {
  }

  lemma {:induction false} AbsorbConcat(p: Parser, a: seq<Inner>, b: seq<Inner>)
    requires IsParser(p)
    ensures Absorb(p, a + b) == Absorb(Absorb(p, a), b)
    decreases |a|
  {
    hide AbsorbOne;
    if a == [] {
      assert a + b == b;
    } else {
      assert (a + b)[1..] == a[1..] + b;
      AbsorbConcat(AbsorbOne(p, a[0]), a[1..], b);
    }
  }

  /** A parser inside a window size report that has seen these values. */
  predicate Collecting(p: Parser, q: Parser, seen: seq<byte>)
  {
    IsParser(q) && q.sbOpt == NAWS && (q.cols, q.rows) == (p.cols, p.rows) &&
    |seen| <= 4 && q.sbLen == |seen| + 1 && q.sbBuf[..|seen|] == seen
  }

  lemma NawsByte(p: Parser, q: Parser, seen: seq<byte>, v: byte)
    requires Collecting(p, q, seen) && |seen| < 4
    ensures Collecting(p, SbByte(q, v), seen + [v])
  {
  }

  lemma {:induction false} AbsorbValues(p: Parser, q: Parser, seen: seq<byte>, vs: seq<byte>)
    requires IsParser(q) && Collecting(p, q, seen) && |seen| + |vs| <= 4
    ensures Collecting(p, Absorb(q, Plains(vs)), seen + vs)
    decreases |vs|
  {
    hide Collecting, SbByte, Plains;
    if vs == [] {
      assert seen + vs == seen;
    } else {
      NawsByte(p, q, seen, vs[0]);
      PlainsCons(vs[0], vs[1..]);
      assert vs == [vs[0]] + vs[1..];
      assert Plains(vs)[1..] == Plains(vs[1..]);
      AbsorbValues(p, SbByte(q, vs[0]), seen + [vs[0]], vs[1..]);
      assert seen + [vs[0]] + vs[1..] == seen + vs;
    }
  }

  lemma NawsDone(p: Parser, q: Parser, seen: seq<byte>)
    requires Collecting(p, q, seen)
    ensures var r := SbEnd(q.(state := SbIac));
      (r.cols, r.rows) == if |seen| == 4 then (Word16(seen[0], seen[1]), Word16(seen[2], seen[3])) else (p.cols, p.rows)
  {
    assert |seen| == 4 ==> q.sbBuf[..4] == seen;
  }

  lemma SubItem(head: seq<byte>, vs: seq<byte>)
    requires IAC !in head
    ensures IsItem(Sub(Plains(head) + Quotes(vs)))
  {
  }

  lemma WordIs(hi: byte, lo: byte)
    ensures Word16(hi, lo) == BeValue([hi, lo])
  {
    assert [hi, lo][..1] == [hi];
    assert BeValue([hi]) == 256 * BeValue([hi][..0]) + hi == hi;
  }

  lemma NawsStart(p: Parser)
    requires IsParser(p)
    ensures Collecting(p, SbByte(p.(sbLen := 0, sbOpt := 0, state := InSb), NAWS), [])
  {
  }

  /** A window size report is recorded exactly when none of its four bytes is 0xFF; a doubled
      0xFF is dropped, the report is then too short and the size stays as it was. */
  lemma NawsExact(p: Parser, size: seq<byte>)
    requires IsParser(p) && p.state == Normal && |size| == 4
    ensures var q := Feed(p, Wire(Sub(Plains([NAWS]) + Quotes(size)))).p;
      (q.cols, q.rows) ==
        if IAC !in size then (BeValue(size[..2]), BeValue(size[2..])) else (p.cols, p.rows)
  {
    WordIs(size[0], size[1]);
    WordIs(size[2], size[3]);
    assert size[..2] == [size[0], size[1]] && size[2..] == [size[2], size[3]];
    hide Feed, Wire, Word16, BeValue, Absorb, SbByte, Collecting, Quotes, SbEnd, Kept, IsItem, Plains;
    var q := p.(sbLen := 0, sbOpt := 0, state := InSb);
    SubItem([NAWS], size);
    FeedSub(p, Plains([NAWS]) + Quotes(size));
    AbsorbHead(q, NAWS, Quotes(size));
    NawsStart(p);
    AbsorbQuotes(SbByte(q, NAWS), size);
    KeptAll(size);
    AbsorbValues(p, SbByte(q, NAWS), [], Kept(size));
    assert [] + Kept(size) == Kept(size);
    NawsDone(p, Absorb(SbByte(q, NAWS), Quotes(size)), Kept(size));
  }

  lemma AbsorbHead(p: Parser, b: byte, rest: seq<Inner>)
    requires IsParser(p)
    ensures Absorb(p, Plains([b]) + rest) == Absorb(SbByte(p, b), rest)
  {
    hide Absorb, SbByte;
    assert Plains([b]) == [Plain(b)];
    AbsorbCons(p, Plain(b), rest);
  }

  /** A terminal type buffer after a name has arrived from index at on: 40 bytes fit. */
  function Stored(t: seq<byte>, at: nat, name: seq<byte>): (u: seq<byte>)
    requires |t| == 41
    ensures |u| == 41
  {
    seq(41, k requires 0 <= k < 41 => if at <= k < at + |name| && k < 40 then name[k - at] else t[k])
  }

  /** The bytes of a name land one after the other, until the length counter is full. */
  lemma {:induction false} AbsorbName(p: Parser, name: seq<byte>)
    requires IsParser(p) && p.sbOpt == TTYPE && p.sbLen >= 2 && p.sbLen + |name| <= 256
    ensures Absorb(p, Plains(name)) == p.(sbLen := (p.sbLen + |name|) % 256, ttype := Stored(p.ttype, p.sbLen - 2, name))
    decreases |name|
  {
    if name == [] {
      assert Stored(p.ttype, p.sbLen - 2, name) == p.ttype;
    } else {
      NameByte(p, name);
      assert Plains(name)[1..] == Plains(name[1..]);
      hide SbByte, Stored, Plains;
      if p.sbLen < 255 {
        AbsorbName(SbByte(p, name[0]), name[1..]);
      } else {
        assert Plains(name[1..]) == [];
      }
    }
  }

  lemma NameByte(p: Parser, name: seq<byte>)
    requires IsParser(p) && p.sbOpt == TTYPE && p.sbLen >= 2 && name != []
    ensures var q := SbByte(p, name[0]);
      q == p.(sbLen := (p.sbLen + 1) % 256, ttype := q.ttype) &&
      Stored(q.ttype, p.sbLen - 1, name[1..]) == Stored(p.ttype, p.sbLen - 2, name) &&
      (|name| == 1 ==> q.ttype == Stored(p.ttype, p.sbLen - 2, name))
  {
  }

  lemma TtypeStart(p: Parser, rest: seq<Inner>)
    requires IsParser(p)
    ensures var q := p.(sbLen := 0, sbOpt := 0, state := InSb);
      Absorb(q, Plains([TTYPE, 0]) + rest) == Absorb(q.(sbLen := 2, sbOpt := TTYPE, sbBuf := p.sbBuf[0 := 0]), rest)
  {
    hide Absorb, SbByte;
    var q := p.(sbLen := 0, sbOpt := 0, state := InSb);
    assert Plains([TTYPE, 0]) + rest == Plains([TTYPE]) + (Plains([0]) + rest);
    AbsorbHead(q, TTYPE, Plains([0]) + rest);
    AbsorbHead(SbByte(q, TTYPE), 0, rest);
    TtypeHead(q);
  }

  lemma TtypeHead(q: Parser)
    requires IsParser(q) && q.sbLen == 0
    ensures SbByte(SbByte(q, TTYPE), 0) == q.(sbLen := 2, sbOpt := TTYPE, sbBuf := q.sbBuf[0 := 0])
  {
  }

  /** The end of a terminal type whose length counter has not wrapped. */
  lemma TtypeEnd(q: Parser, t: seq<byte>, name: seq<byte>)
    requires IsParser(q) && |t| == 41 && q.sbOpt == TTYPE && |name| <= 253 && q.sbLen == 2 + |name|
    requires q.ttype == Stored(t, 0, name)
    ensures var n := if |name| > 40 then 40 else |name|;
      var u := SbEnd(q).ttype;
      u[..n] == name[..n] && (if n == 0 then u == t else u[n] == 0)
  {
    if name == [] {
      assert Stored(t, 0, name) == t;
    }
  }

  /** A subnegotiation that goes on when the length counter is back at zero. */
  lemma WrappedEnd(q: Parser, rest: seq<byte>)
    requires IsParser(q) && q.sbLen == 0 && q.sbOpt == TTYPE && q.state == InSb
    ensures var r := SbEnd(Absorb(q, Plains(rest)).(state := SbIac));
      var again := SbEnd(Absorb(q.(sbOpt := 0), Plains(rest)).(state := SbIac));
      (r.ttype, r.cols, r.rows) == (again.ttype, again.cols, again.rows)
  {
    if rest != [] {
      assert rest == [rest[0]] + rest[1..];
      PlainsCons(rest[0], rest[1..]);
      AbsorbCons(q, Plain(rest[0]), Plains(rest[1..]));
      AbsorbCons(q.(sbOpt := 0), Plain(rest[0]), Plains(rest[1..]));
      assert SbByte(q, rest[0]) == SbByte(q.(sbOpt := 0), rest[0]);
    }
  }

  function TtypeWire(name: seq<byte>): seq<byte>
  {
    Wire(Sub(Plains([TTYPE, 0]) + Quotes(name)))
  }

  /** A terminal type, less its 0xFF bytes, of 1 to 253 bytes is kept up to its 40th byte and
      terminated there; of an empty one nothing changes. */
  lemma TtypeKept(p: Parser, name: seq<byte>)
    requires IsParser(p) && p.state == Normal && |Kept(name)| <= 253
    ensures var q := Feed(p, TtypeWire(name)).p;
      var n := if |Kept(name)| > 40 then 40 else |Kept(name)|;
      q.ttype[..n] == Kept(name)[..n] && (if n == 0 then q.ttype == p.ttype else q.ttype[n] == 0)
  {
    hide Feed, Wire, Absorb, Plains, Quotes, Kept, SbEnd, IsItem, Stored;
    TtypeAbsorbed(p, name);
    var q := p.(sbLen := 2, sbOpt := TTYPE, state := InSb, sbBuf := p.sbBuf[0 := 0]);
    AbsorbName(q, Kept(name));
    TtypeEnd(Absorb(q, Plains(Kept(name))).(state := SbIac), p.ttype, Kept(name));
  }

  lemma TtypeAbsorbed(p: Parser, name: seq<byte>)
    requires IsParser(p) && p.state == Normal
    ensures var q := p.(sbLen := 2, sbOpt := TTYPE, state := InSb, sbBuf := p.sbBuf[0 := 0]);
      Feed(p, TtypeWire(name)).p == SbEnd(Absorb(q, Plains(Kept(name))).(state := SbIac))
  {
    hide Feed, Wire, Absorb, Plains, Quotes, Kept, SbEnd, IsItem;
    SubItem([TTYPE, 0], name);
    FeedSub(p, Plains([TTYPE, 0]) + Quotes(name));
    TtypeStart(p, Quotes(name));
    AbsorbQuotes(p.(sbLen := 2, sbOpt := TTYPE, state := InSb, sbBuf := p.sbBuf[0 := 0]), name);
  }

  /** Of a longer one the first 40 bytes are kept, and everything from the 255th on is taken for
      the content of another subnegotiation, as the 8-bit length counter has wrapped. */
  lemma TtypeWraps(p: Parser, name: seq<byte>)
    requires IsParser(p) && p.state == Normal && |Kept(name)| >= 254
    ensures var q := Feed(p, TtypeWire(name)).p;
      var kept := Kept(name);
      var r := Feed(p.(ttype := kept[..40] + p.ttype[40..], sbBuf := p.sbBuf[0 := 0]), Wire(Sub(Plains(kept[254..])))).p;
      (q.ttype, q.cols, q.rows) == (r.ttype, r.cols, r.rows)
  {
    hide Feed, Wire, Absorb, Plains, Quotes, Kept, SbEnd, IsItem, Stored;
    var kept := Kept(name);
    var t := kept[..40] + p.ttype[40..];
    var front, rest := kept[..254], kept[254..];
    TtypeAbsorbed(p, name);
    var q := p.(sbLen := 2, sbOpt := TTYPE, state := InSb, sbBuf := p.sbBuf[0 := 0]);
    PlainsConcat(front, rest);
    assert kept == front + rest;
    AbsorbConcat(q, Plains(front), Plains(rest));
    AbsorbName(q, front);
    StoredAll(p.ttype, front);
    assert front[..40] == kept[..40];
    WrappedEnd(q.(sbLen := 0, ttype := t), rest);
    KeptAll(name);
    PlainItem(rest);
    FeedSub(p.(ttype := t, sbBuf := p.sbBuf[0 := 0]), Plains(rest));
  }

  lemma PlainsConcat(a: seq<byte>, b: seq<byte>)
    ensures Plains(a + b) == Plains(a) + Plains(b)
  {
  }

  lemma StoredAll(t: seq<byte>, name: seq<byte>)
    requires |t| == 41 && |name| >= 40
    ensures Stored(t, 0, name) == name[..40] + t[40..]
  {
  }

  lemma PlainItem(s: seq<byte>)
    requires IAC !in s
    ensures IsItem(Sub(Plains(s)))
  {
  }

  /** So a terminal type can set the window size. */
  lemma TtypeSetsSize(p: Parser, front: seq<byte>, size: seq<byte>)
    requires IsParser(p) && p.state == Normal && |front| == 254 && |size| == 4 && IAC !in front && IAC !in size
    ensures var q := Feed(p, TtypeWire(front + ([NAWS] + size))).p;
      (q.cols, q.rows) == (BeValue(size[..2]), BeValue(size[2..]))
  {
    hide Feed, Wire, Plains, Quotes, Kept, Word16, BeValue, TtypeWire;
    var name := front + ([NAWS] + size);
    KeptAll(name);
    TtypeWraps(p, name);
    assert name[254..] == [NAWS] + size;
    PlainsConcat([NAWS], size);
    QuotesPlain(size);
    NawsExact(p.(ttype := name[..40] + p.ttype[40..], sbBuf := p.sbBuf[0 := 0]), size);
  }

  lemma QuotesPlain(vs: seq<byte>)
    requires IAC !in vs
    ensures Quotes(vs) == Plains(vs)
  {
  }

  // ---- The parser of a port ----

  class TelnetPort {
    var iacState: IacState
    var iacCmd: byte
    var flags: Flags
    var sbOpt: byte
    const sbBuf: array<byte>
    var sbLen: byte
    var nawsCols: int
    var nawsRows: int
    const ttype: array<byte>

    ghost predicate Valid()
    {
      sbBuf.Length == 8 && ttype.Length == 41 && sbBuf != ttype
    }

    ghost function Abs(): (p: Parser)
      reads this, sbBuf, ttype
      requires Valid()
      ensures IsParser(p)
    {
      Parser(iacState, iacCmd, flags, sbOpt, sbBuf[..], sbLen, nawsCols, nawsRows, ttype[..])
    }

    constructor ()
      ensures Valid() && fresh(sbBuf) && fresh(ttype)
    {
      sbBuf, ttype := new byte[8](_ => 0), new byte[41](_ => 0);
      iacState, iacCmd, flags, sbOpt, sbLen, nawsCols, nawsRows := Normal, 0, NO_FLAGS, 0, 0, 0, 0;
    }

    /** telnet_on_connect: forgets the previous call; what it sends is the two offers. */
    method OnConnect() returns (sent: seq<byte>)
      requires Valid()
      modifies this, ttype
      ensures Abs() == old(Abs()).(state := Normal, cmd := 0, flags := Flags(false, false, false, false, false), sbOpt := 0,
        sbLen := 0, cols := 0, rows := 0, ttype := old(ttype[..])[0 := 0])
      ensures sent == OFFERS
    {
      iacState, iacCmd, flags := Normal, 0, NO_FLAGS;
      sbOpt, sbLen, nawsCols, nawsRows := 0, 0, 0, 0;
      ttype[0] := 0;
      return OFFERS;
    }

    /** telnet_handle_option. */
    method HandleOption(cmd: byte, opt: byte) returns (sent: seq<byte>)
      modifies `flags
      ensures (flags, sent) == OnOption(old(flags), cmd, opt)
    {
      sent := [];
      if cmd == DO {
        if opt == BINARY && !flags.binary {
          flags := flags.(binary := true);
          sent := Response(WILL, opt);
        } else if opt == ECHO && !flags.echo {
          flags := flags.(echo := true);
          sent := Response(WILL, opt);
        } else if opt == SGA && !flags.sga {
          flags := flags.(sga := true);
          sent := Response(WILL, opt);
        } else if opt != BINARY && opt != ECHO && opt != SGA {
          sent := Response(WONT, opt);
        }
      } else if cmd == WILL {
        if opt == BINARY && !flags.binary {
          flags := flags.(binary := true);
          sent := Response(DO, opt);
        } else if opt == SGA && !flags.sga {
          flags := flags.(sga := true);
          sent := Response(DO, opt);
        } else if opt == NAWS && !flags.naws {
          flags := flags.(naws := true);
          sent := Response(DO, opt);
        } else if opt == TTYPE && !flags.ttype {
          flags := flags.(ttype := true);
          sent := TTYPE_REQUEST;
        } else if opt != BINARY && opt != SGA && opt != NAWS && opt != TTYPE {
          sent := Response(DONT, opt);
        }
      }
    }

    /** A byte of subnegotiation content. */
    method Accumulate(b: byte)
      requires Valid()
      modifies this, sbBuf, ttype
      ensures Abs() == SbByte(old(Abs()), b)
    {
      if sbLen == 0 {
        sbOpt := b;
      } else if sbOpt == TTYPE && sbLen >= 2 {
        var ti := sbLen - 2;
        if ti < 40 {
          ttype[ti] := b;
        }
      } else if sbLen <= 8 {
        sbBuf[sbLen - 1] := b;
      }
      sbLen := (sbLen + 1) % 256;
    }

    /** IAC SE. */
    method Finish()
      requires Valid()
      modifies this, ttype
      ensures Abs() == SbEnd(old(Abs()))
    {
      if sbOpt == TTYPE && sbLen > 2 {
        var tlen := sbLen - 2;
        if tlen > 40 {
          tlen := 40;
        }
        ttype[tlen] := 0;
      } else if sbOpt == NAWS && sbLen >= 5 {
        nawsCols := Word16(sbBuf[0], sbBuf[1]);
        nawsRows := Word16(sbBuf[2], sbBuf[3]);
      }
      iacState := Normal;
    }

    /** telnet_filter: the data byte or -1; sent is what it hands to the socket. */
    method Filter(b: byte) returns (r: int, sent: seq<byte>)
      requires Valid()
      modifies this, sbBuf, ttype
      ensures Filtered(Abs(), r, sent) == Step(old(Abs()), b)
    {
      hide OnOption, SbByte, SbEnd;
      r, sent := -1, [];
      match iacState
      case Normal =>
        if b == IAC {
          iacState := SawFf;
        } else {
          r := b;
        }
      case SawFf =>
        if b == IAC {
          iacState := Normal;
          r := 0xFF;
        } else if b == WILL || b == WONT || b == DO || b == DONT {
          iacCmd := b;
          iacState := SawCmd;
        } else if b == SB {
          sbLen := 0;
          sbOpt := 0;
          iacState := InSb;
        } else {
          iacState := Normal;
        }
      case SawCmd =>
        sent := HandleOption(iacCmd, b);
        iacState := Normal;
      case InSb =>
        if b == IAC {
          iacState := SbIac;
        } else {
          Accumulate(b);
        }
      case SbIac =>
        if b == SE {
          Finish();
        } else {
          iacState := InSb;
        }
    }
  }

  // ---- Draining a socket into the receive ring ----

  const RING_SIZE := 4096
  /** sizeof(tmp) in the poll cycle. */
  const CHUNK := 256

  /** The receiving side of a socket as the environment: recv returns any non-empty part of
      what has arrived, or an error. */
  class Inbound {
    var incoming: seq<byte>

    constructor (arrived: seq<byte>)
      ensures incoming == arrived
    {
      incoming := arrived;
    }

    method DataWaiting() returns (waiting: bool)
      ensures waiting ==> incoming != []
    {
      waiting :| waiting ==> incoming != [];
    }

    method Recv(max: nat) returns (n: int, chunk: seq<byte>)
      modifies this
      ensures n <= max && |chunk| == (if n > 0 then n else 0)
      ensures old(incoming) == chunk + incoming
    {
      n :| -1 <= n <= max && n <= |incoming|;
      var k := if n > 0 then n else 0;
      chunk, incoming := incoming[..k], incoming[k..];
    }
  }

  /** One chunk through the parser and, if the call has been answered, into the ring, which
      has room for it. */
  method FilterChunk(port: TelnetPort, ring: RingBuf, chunk: seq<byte>, quiet: bool) returns (sent: seq<byte>)
    requires port.Valid() && ring.Valid() && ring.data != port.sbBuf && ring.data != port.ttype
    requires |ring.Contents()| + |chunk| <= ring.data.Length
    modifies port, port.sbBuf, port.ttype, ring, ring.data
    ensures ring.Valid()
    ensures var f := Feed(old(port.Abs()), chunk);
      port.Abs() == f.p && sent == f.sent &&
      ring.Contents() == old(ring.Contents()) + if quiet then [] else f.data
  {
    hide Feed, Step, Unwrap, Slot;
    ghost var p, queue := port.Abs(), ring.Contents();
    sent := [];
    FeedNothing(p);
    var j := 0;
    while j < |chunk|
      invariant 0 <= j <= |chunk| && ring.Valid()
      invariant port.Abs() == Feed(p, chunk[..j]).p && sent == Feed(p, chunk[..j]).sent
      invariant ring.Contents() == queue + if quiet then [] else Feed(p, chunk[..j]).data
    {
      ghost var q := port.Abs();
      var r, reply := port.Filter(chunk[j]);
      FeedMore(p, chunk, j);
      if r >= 0 && !quiet {
        var rc := ring.Put(r);
        assert rc == 0;
      }
      sent := sent + reply;
      j := j + 1;
    }
    assert chunk[..j] == chunk;
  }

  lemma FeedNothing(p: Parser)
    requires IsParser(p)
    ensures Feed(p, [][..0]) == Fed(p, [], [])
  {
  }

  lemma FeedMore(p: Parser, s: seq<byte>, j: nat)
    requires IsParser(p) && j < |s|
    ensures var f := Feed(p, s[..j]);
      var q := Step(f.p, s[j]);
      Feed(p, s[..j + 1]) == Fed(q.p, f.data + DataOf(q.r), f.sent + q.sent)
  {
    hide Step;
    assert s[..j + 1] == s[..j] + [s[j]];
    FeedConcat(p, s[..j], [s[j]]);
    FeedOne(Feed(p, s[..j]).p, s[j]);
  }

  /** The drain loop of the poll cycle. No byte is lost once the call has been answered: the
      ring grows by exactly the data of what was received, in order. Before that the commands
      take effect and the data is dropped. */
  method Drain(port: TelnetPort, ring: RingBuf, rx: Inbound, quiet: bool) returns (sent: seq<byte>, ghost got: seq<byte>)
    requires port.Valid() && ring.Valid() && ring.data != port.sbBuf && ring.data != port.ttype
    requires ring.data.Length == 4096
    modifies port, port.sbBuf, port.ttype, ring, ring.data, rx
    ensures ring.Valid() && old(rx.incoming) == got + rx.incoming
    ensures var f := Feed(old(port.Abs()), got);
      port.Abs() == f.p && sent == f.sent &&
      ring.Contents() == old(ring.Contents()) + if quiet then [] else f.data
  {
    hide Feed, Unwrap, Slot;
    ghost var p, queue, stream := port.Abs(), ring.Contents(), rx.incoming;
    sent, got := [], [];
    FeedNothing(p);
    var waiting := rx.DataWaiting();
    while waiting
      invariant ring.Valid() && stream == got + rx.incoming && (waiting ==> rx.incoming != [])
      invariant port.Abs() == Feed(p, got).p && sent == Feed(p, got).sent
      invariant ring.Contents() == queue + if quiet then [] else Feed(p, got).data
      decreases |rx.incoming|
    {
      if ring.count > RING_SIZE - CHUNK {
        break;
      }
      var n, chunk := rx.Recv(CHUNK);
      if n <= 0 {
        break;
      }
      FeedConcat(p, got, chunk);
      var reply := FilterChunk(port, ring, chunk, quiet);
      got := got + chunk;
      sent := sent + reply;
      waiting := rx.DataWaiting();
    }
  }

  // ---- What the application reads ----

  /** On an answered call: a drain that received some bytes, or a read of up to n bytes
      (AH=02h with n = 1, AH=18h). */
  datatype RxEvent = Arrived(bytes: seq<byte>) | Take(n: nat)

  /** The parser, the receive ring, and what the application has read. */
  datatype Rx = Rx(p: Parser, queue: seq<byte>, taken: seq<byte>)

  function RxStep(x: Rx, e: RxEvent): (y: Rx)
    requires IsParser(x.p)
    ensures IsParser(y.p)
  {
    match e
    case Arrived(bytes) => var f := Feed(x.p, bytes); x.(p := f.p, queue := x.queue + f.data)
    case Take(n) =>
      var k := if n < |x.queue| then n else |x.queue|;
      x.(queue := x.queue[k..], taken := x.taken + x.queue[..k])
  }

  function RxRun(x: Rx, es: seq<RxEvent>): (y: Rx)
    requires IsParser(x.p)
    ensures IsParser(y.p)
    decreases |es|
  {
    if es == [] then x else RxRun(RxStep(x, es[0]), es[1..])
  }

  /** Everything that arrived. */
  function Arrivals(es: seq<RxEvent>): seq<byte>
    decreases |es|
  {
    if es == [] then [] else (if es[0].Arrived? then es[0].bytes else []) + Arrivals(es[1..])
  }

  /** Until a purge the application reads the filtered stream in order: what it has taken and
      what is in the ring is what was there plus the data of everything that arrived. */
  lemma {:induction false} ReadsInOrder(x: Rx, es: seq<RxEvent>)
    requires IsParser(x.p)
    ensures var y, f := RxRun(x, es), Feed(x.p, Arrivals(es));
      y.p == f.p && y.taken + y.queue == x.taken + x.queue + f.data
    decreases |es|
  {
    hide Feed;
    FeedNothing(x.p);
    if es != [] {
      var y := RxStep(x, es[0]);
      StepInOrder(x, es[0]);
      ReadsInOrder(y, es[1..]);
      var bytes := if es[0].Arrived? then es[0].bytes else [];
      FeedConcat(x.p, bytes, Arrivals(es[1..]));
      hide RxStep;
      assert x.taken + x.queue + Feed(x.p, bytes).data + Feed(y.p, Arrivals(es[1..])).data
        == x.taken + x.queue + (Feed(x.p, bytes).data + Feed(y.p, Arrivals(es[1..])).data);
    }
  }

  lemma StepInOrder(x: Rx, e: RxEvent)
    requires IsParser(x.p)
    ensures var y, f := RxStep(x, e), Feed(x.p, if e.Arrived? then e.bytes else []);
      y.p == f.p && y.taken + y.queue == x.taken + x.queue + f.data
  {
    hide Feed;
    FeedNothing(x.p);
  }
}
