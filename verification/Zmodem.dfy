/**
 The ZMODEM codec of the tests: the sender of comtest.c, its header reader, and the Python
 receiver. Each reader is proved to undo the sender.
 */
module Zmodem {
  import opened Crc16

  const ZPAD: bv8 := 0x2A
  const ZDLE: bv8 := 0x18
  const ZHEX: bv8 := 0x42
  const ZFIN: bv8 := 8
  const CR: bv8 := 0x0D
  const LF: bv8 := 0x0A
  const XON: bv8 := 0x11

  // ---- Data subpackets ----

  predicate NeedsEscape(b: bv8)
  {
    b == 0x18 || b == 0x10 || b == 0x11 || b == 0x13 || b == 0x90 || b == 0x91 || b == 0x93 || b == 0xFF
  }

  function Escaped(b: bv8): seq<bv8>
  {
    if NeedsEscape(b) then [ZDLE, b ^ 0x40] else [b]
  }

  function EscapedAll(s: seq<bv8>): seq<bv8>
    decreases |s|
  {
    if s == [] then [] else Escaped(s[0]) + EscapedAll(s[1..])
  }

  /** ZCRCE, ZCRCG, ZCRCQ and ZCRCW. */
  predicate IsEnd(b: bv8)
  {
    0x68 <= b <= 0x6B
  }

  function Hi(crc: bv16): bv8
  {
    (crc >> 8) as bv8
  }

  function Lo(crc: bv16): bv8
  {
    (crc & 0xFF) as bv8
  }

  function CrcBytes(crc: bv16): seq<bv8>
  {
    Escaped(Hi(crc)) + Escaped(Lo(crc))
  }

  /** What zm_send_data puts on the line. */
  function EncodeData(data: seq<bv8>, frameend: bv8): seq<bv8>
  {
    EscapedAll(data) + [ZDLE, frameend] + CrcBytes(Crc(data + [frameend]))
  }

  /** A received subpacket and what follows it; a checksum error; or not enough bytes. */
  datatype Packet = Packet(data: seq<bv8>, frameend: bv8, rest: seq<bv8>) | Mismatch(rest: seq<bv8>) | Timeout

  /** One byte of the checksum, unescaped, and what follows. */
  datatype Unescaped = Some(b: bv8, rest: seq<bv8>) | None

  function GetUnescaped(s: seq<bv8>): Unescaped
  {
    if s == [] then None
    else if s[0] != ZDLE then Some(s[0], s[1..])
    else if |s| < 2 then None
    else Some(s[1] ^ 0x40, s[2..])
  }

  function CheckCrc(data: seq<bv8>, frameend: bv8, s: seq<bv8>): Packet
  {
    match GetUnescaped(s)
    case None => Timeout
    case Some(hi, s') =>
      match GetUnescaped(s')
      case None => Timeout
      case Some(lo, rest) =>
        if Crc(data + [frameend]) == Word(hi, lo) then Packet(data, frameend, rest) else Mismatch(rest)
  }

  function Word(hi: bv8, lo: bv8): bv16
  {
    ((hi as bv16) << 8) | (lo as bv16)
  }

  /** recv_data_subpacket with some data received already. */
  function DecodeData(data: seq<bv8>, s: seq<bv8>): Packet
    decreases |s|
  {
    if s == [] then Timeout
    else if s[0] != ZDLE then DecodeData(data + [s[0]], s[1..])
    else if |s| < 2 then Timeout
    else if IsEnd(s[1]) then CheckCrc(data, s[1], s[2..])
    else DecodeData(data + [s[1] ^ 0x40], s[2..])
  }

  lemma EscapedFacts(b: bv8)
    ensures !NeedsEscape(b) ==> b != ZDLE
    ensures NeedsEscape(b) ==> !IsEnd(b ^ 0x40) && (b ^ 0x40) ^ 0x40 == b
  {
  }

  lemma DecodeOne(data: seq<bv8>, b: bv8, tail: seq<bv8>)
    ensures DecodeData(data, Escaped(b) + tail) == DecodeData(data + [b], tail)
    ensures GetUnescaped(Escaped(b) + tail) == Some(b, tail)
  {
    EscapedFacts(b);
    hide CheckCrc, IsEnd;
    var s := Escaped(b) + tail;
    if NeedsEscape(b) {
      assert s[0] == ZDLE && s[1] == b ^ 0x40 && s[2..] == tail;
    } else {
      assert s[0] == b && s[1..] == tail;
    }
  }

  lemma {:induction false} DecodeEscaped(data: seq<bv8>, more: seq<bv8>, tail: seq<bv8>)
    ensures DecodeData(data, EscapedAll(more) + tail) == DecodeData(data + more, tail)
    decreases |more|
  {
    hide Escaped, DecodeData;
    if more == [] {
      assert EscapedAll(more) + tail == tail && data + more == data;
    } else {
      DecodeOne(data, more[0], EscapedAll(more[1..]) + tail);
      DecodeEscaped(data + [more[0]], more[1..], tail);
      assert EscapedAll(more) + tail == Escaped(more[0]) + (EscapedAll(more[1..]) + tail);
      assert data + [more[0]] + more[1..] == data + more;
    }
  }

  lemma WordOfBytes(crc: bv16)
    ensures Word(Hi(crc), Lo(crc)) == crc
  {
  }

  lemma DecodeEnd(data: seq<bv8>, frameend: bv8, s: seq<bv8>)
    requires IsEnd(frameend)
    ensures DecodeData(data, [ZDLE, frameend] + s) == CheckCrc(data, frameend, s)
  {
    hide CheckCrc, IsEnd;
    assert ([ZDLE, frameend] + s)[2..] == s;
  }

  lemma CrcAccepted(data: seq<bv8>, frameend: bv8, rest: seq<bv8>)
    ensures CheckCrc(data, frameend, CrcBytes(Crc(data + [frameend])) + rest) == Packet(data, frameend, rest)
  {
    hide Escaped, Word, Crc, IsEnd, GetUnescaped, DecodeData, Hi, Lo;
    var crc := Crc(data + [frameend]);
    var hi, lo := Hi(crc), Lo(crc);
    WordOfBytes(crc);
    DecodeOne(data, hi, Escaped(lo) + rest);
    DecodeOne(data, lo, rest);
    assert CrcBytes(crc) + rest == Escaped(hi) + (Escaped(lo) + rest);
  }

  /** Every byte string and every frame end comes back, and what follows is left alone. */
  lemma DataRoundTrip(data: seq<bv8>, frameend: bv8, rest: seq<bv8>)
    requires IsEnd(frameend)
    ensures DecodeData([], EncodeData(data, frameend) + rest) == Packet(data, frameend, rest)
  {
    hide Crc, CrcBytes, EscapedAll, DecodeData, CheckCrc, IsEnd;
    var sum := CrcBytes(Crc(data + [frameend])) + rest;
    var tail := [ZDLE, frameend] + sum;
    assert EncodeData(data, frameend) + rest == EscapedAll(data) + tail;
    DecodeEscaped([], data, tail);
    assert [] + data == data;
    DecodeEnd(data, frameend, sum);
    CrcAccepted(data, frameend, rest);
  }

  // ---- Hex headers ----

  function HexDigit(n: bv8): bv8
  {
    if n < 10 then 0x30 + n else 0x57 + n
  }

  predicate IsHexDigit(c: bv8)
  {
    0x30 <= c <= 0x39 || 0x61 <= c <= 0x66 || 0x41 <= c <= 0x46
  }

  function HexValue(c: bv8): bv8
  {
    if c >= 0x61 then c - 0x61 + 10 else if c >= 0x41 then c - 0x41 + 10 else c - 0x30
  }

  /** A byte as two lower-case digits. */
  function HexPair(b: bv8): seq<bv8>
  {
    [HexDigit(b >> 4), HexDigit(b & 0x0F)]
  }

  function HexByte(hi: bv8, lo: bv8): bv8
  {
    (HexValue(hi) << 4) | HexValue(lo)
  }

  lemma HexBack(b: bv8)
    ensures IsHexDigit(HexDigit(b >> 4)) && IsHexDigit(HexDigit(b & 0x0F))
    ensures HexByte(HexDigit(b >> 4), HexDigit(b & 0x0F)) == b
  {
  }

  /** Type and position, position low byte first. */
  function HeaderBytes(kind: bv8, pos: bv32): (h: seq<bv8>)
    ensures |h| == 5
  {
    [kind, (pos & 0xFF) as bv8, ((pos >> 8) & 0xFF) as bv8, ((pos >> 16) & 0xFF) as bv8, ((pos >> 24) & 0xFF) as bv8]
  }

  function Position(b1: bv8, b2: bv8, b3: bv8, b4: bv8): bv32
  {
    (b1 as bv32) | ((b2 as bv32) << 8) | ((b3 as bv32) << 16) | ((b4 as bv32) << 24)
  }

  lemma PositionBack(pos: bv32)
    ensures Position((pos & 0xFF) as bv8, ((pos >> 8) & 0xFF) as bv8, ((pos >> 16) & 0xFF) as bv8, ((pos >> 24) & 0xFF) as bv8) == pos
  {
  }

  function Pairs(h: seq<bv8>): seq<bv8>
    decreases |h|
  {
    if h == [] then [] else HexPair(h[0]) + Pairs(h[1..])
  }

  /** The fourteen digits of a header: its bytes and their checksum. */
  function Digits(kind: bv8, pos: bv32): seq<bv8>
  {
    var h := HeaderBytes(kind, pos);
    Pairs(h + [Hi(Crc(h)), Lo(Crc(h))])
  }

  function Trailer(kind: bv8): seq<bv8>
  {
    if kind != ZFIN then [CR, LF, XON] else [CR, LF]
  }

  /** What zm_send_hex_hdr puts on the line. */
  function EncodeHeader(kind: bv8, pos: bv32): seq<bv8>
  {
    [ZPAD, ZPAD, ZDLE, ZHEX] + Digits(kind, pos) + Trailer(kind)
  }

  datatype Header = Header(kind: bv8, pos: bv32) | BadCrc

  /** The five bytes in the first ten digits. */
  function HexBytes(d: seq<bv8>): (h: seq<bv8>)
    requires |d| == 14
    ensures |h| == 5
  {
    [HexByte(d[0], d[1]), HexByte(d[2], d[3]), HexByte(d[4], d[5]), HexByte(d[6], d[7]), HexByte(d[8], d[9])]
  }

  /** The header in fourteen digits, if its checksum is right. */
  function ParseDigits(d: seq<bv8>): Header
    requires |d| == 14
  {
    var h := HexBytes(d);
    if Crc(h) != Word(HexByte(d[10], d[11]), HexByte(d[12], d[13])) then BadCrc
    else Header(h[0], Position(h[1], h[2], h[3], h[4]))
  }

  lemma PairsSplit(h: seq<bv8>)
    requires h != []
    ensures |Pairs(h)| == 2 + |Pairs(h[1..])| && Pairs(h)[2..] == Pairs(h[1..])
    ensures Pairs(h)[0] == HexDigit(h[0] >> 4) && Pairs(h)[1] == HexDigit(h[0] & 0x0F)
  {
    hide HexDigit;
    assert Pairs(h) == HexPair(h[0]) + Pairs(h[1..]);
  }

  /** The digits of byte i are where they belong and read back as the byte. */
  lemma {:induction false} PairAt(h: seq<bv8>, i: nat)
    requires i < |h|
    ensures |Pairs(h)| == 2 * |h|
    ensures IsHexDigit(Pairs(h)[2 * i]) && IsHexDigit(Pairs(h)[2 * i + 1])
    ensures HexByte(Pairs(h)[2 * i], Pairs(h)[2 * i + 1]) == h[i]
    decreases |h|
  {
    PairsSplit(h);
    HexBack(h[0]);
    hide HexDigit, HexByte, IsHexDigit, HexPair;
    if |h| > 1 {
      hide Pairs;
      PairAt(h[1..], if i > 0 then i - 1 else 0);
      if i > 0 {
        assert Pairs(h)[2 * i] == Pairs(h)[2..][2 * (i - 1)];
        assert Pairs(h)[2 * i + 1] == Pairs(h)[2..][2 * (i - 1) + 1];
      }
    }
  }

  lemma ChecksumBack(h: seq<bv8>, d: seq<bv8>, kind: bv8, pos: bv32)
    requires h == HeaderBytes(kind, pos) && |d| == 14
    requires HexByte(d[0], d[1]) == h[0] && HexByte(d[2], d[3]) == h[1] && HexByte(d[4], d[5]) == h[2]
    requires HexByte(d[6], d[7]) == h[3] && HexByte(d[8], d[9]) == h[4]
    requires HexByte(d[10], d[11]) == Hi(Crc(h)) && HexByte(d[12], d[13]) == Lo(Crc(h))
    ensures ParseDigits(d) == Header(kind, pos)
  {
    hide HexByte, Crc, Word, Hi, Lo, Position;
    WordOfBytes(Crc(h));
    PositionBack(pos);
    assert HexBytes(d) == h;
  }

  lemma DigitsBack(kind: bv8, pos: bv32)
    ensures |Digits(kind, pos)| == 14 && (forall i :: 0 <= i < 14 ==> IsHexDigit(Digits(kind, pos)[i]))
    ensures ParseDigits(Digits(kind, pos)) == Header(kind, pos)
  {
    hide HexDigit, HexByte, IsHexDigit, Crc, Word, Hi, Lo, Position, Pairs, ParseDigits, HeaderBytes;
    var h := HeaderBytes(kind, pos);
    var all := h + [Hi(Crc(h)), Lo(Crc(h))];
    PairAt(all, 0);
    PairAt(all, 1);
    PairAt(all, 2);
    PairAt(all, 3);
    PairAt(all, 4);
    PairAt(all, 5);
    PairAt(all, 6);
    ChecksumBack(h, Digits(kind, pos), kind, pos);
  }

  // ---- Finding a header in a stream ----

  /** The digits found and what follows them, or the end of the stream. */
  datatype Found = Found(digits: seq<bv8>, rest: seq<bv8>) | Ended

  predicate AllHex(d: seq<bv8>)
  {
    forall i :: 0 <= i < |d| ==> IsHexDigit(d[i])
  }

  /** zm_recv_hex_hdr: the four-state search for ZPAD... ZDLE ZHEX and fourteen digits, in
      state st with the digits d collected. */
  function Search(st: nat, d: seq<bv8>, s: seq<bv8>): (f: Found)
    requires |d| < 14 && AllHex(d)
    ensures f.Found? ==> |f.digits| == 14 && AllHex(f.digits)
    decreases |s|
  {
    hide IsHexDigit;
    if s == [] then Ended
    else
      var b, rest := s[0], s[1..];
      if st == 0 then Search(if b == ZPAD then 1 else 0, d, rest)
      else if st == 1 then Search(if b == ZPAD then 1 else if b == ZDLE then 2 else 0, d, rest)
      else if st == 2 then (if b == ZHEX then Search(3, [], rest) else Search(0, d, rest))
      else if IsHexDigit(b) then (if |d| == 13 then Found(d + [b], rest) else Search(3, d + [b], rest))
      else if b == CR || b == LF || b == XON then Search(3, d, rest)
      else Search(0, d, rest)
  }

  /** _wait_for_zpad: the byte after ZPAD... ZDLE. */
  function WaitPad(st: nat, s: seq<bv8>): Unescaped
    decreases |s|
  {
    if s == [] then None
    else if st == 0 then WaitPad(if s[0] == ZPAD then 1 else 0, s[1..])
    else if st == 1 then WaitPad(if s[0] == ZPAD then 1 else if s[0] == ZDLE then 2 else 0, s[1..])
    else Some(s[0], s[1..])
  }

  /** The digit loop of _recv_hex_header, which passes over anything else. */
  function CollectDigits(d: seq<bv8>, s: seq<bv8>): (f: Found)
    requires |d| <= 14 && AllHex(d)
    ensures f.Found? ==> |f.digits| == 14 && AllHex(f.digits)
    decreases |s|
  {
    hide IsHexDigit;
    if |d| >= 14 then Found(d, s)
    else if s == [] then Ended
    else CollectDigits(if IsHexDigit(s[0]) then d + [s[0]] else d, s[1..])
  }

  /** Its trailer loop. */
  function SkipTrailer(s: seq<bv8>): seq<bv8>
    decreases |s|
  {
    if s != [] && (s[0] == CR || s[0] == LF || s[0] == XON) then SkipTrailer(s[1..]) else s
  }

  /** What a header reader returns, and what it leaves unread. */
  datatype Received = Received(h: Header, rest: seq<bv8>) | OtherKind(enc: bv8, rest: seq<bv8>) | NoHeader

  /** zm_recv_hex_hdr. */
  function ReadHeader(s: seq<bv8>): Received
  {
    match Search(0, [], s)
    case Ended => NoHeader
    case Found(d, rest) => Received(ParseDigits(d), rest)
  }

  /** _recv_hex_header. */
  function ReadDigits(s: seq<bv8>): Received
  {
    match CollectDigits([], s)
    case Ended => NoHeader
    case Found(d, rest) => Received(ParseDigits(d), SkipTrailer(rest))
  }

  /** recv_header of the Python side, as far as hex headers are concerned. */
  function ReadAnyHeader(s: seq<bv8>): Received
  {
    match WaitPad(0, s)
    case None => NoHeader
    case Some(enc, rest) => if enc == ZHEX then ReadDigits(rest) else OtherKind(enc, rest)
  }

  predicate NoPad(noise: seq<bv8>)
  {
    forall i :: 0 <= i < |noise| ==> noise[i] != ZPAD
  }

  lemma {:induction false} SearchNoise(noise: seq<bv8>, s: seq<bv8>)
    requires NoPad(noise)
    ensures Search(0, [], noise + s) == Search(0, [], s) && WaitPad(0, noise + s) == WaitPad(0, s)
    decreases |noise|
  {
    if noise == [] {
      assert noise + s == s;
    } else {
      assert (noise + s)[1..] == noise[1..] + s;
      SearchNoise(noise[1..], s);
    }
  }

  lemma SearchStart(s: seq<bv8>)
    ensures Search(0, [], [ZPAD, ZPAD, ZDLE, ZHEX] + s) == Search(3, [], s)
    ensures WaitPad(0, [ZPAD, ZPAD, ZDLE, ZHEX] + s) == Some(ZHEX, s)
  {
    var t := [ZPAD, ZPAD, ZDLE, ZHEX] + s;
    assert t[1..] == [ZPAD, ZDLE, ZHEX] + s;
    assert t[1..][1..] == [ZDLE, ZHEX] + s;
    assert t[1..][1..][1..] == [ZHEX] + s;
    assert t[1..][1..][1..][1..] == s;
    assert Search(1, [], t[1..]) == Search(1, [], t[1..][1..]);
    assert Search(1, [], t[1..][1..]) == Search(2, [], t[1..][1..][1..]);
    assert WaitPad(1, t[1..]) == WaitPad(1, t[1..][1..]);
    assert WaitPad(1, t[1..][1..]) == WaitPad(2, t[1..][1..][1..]);
  }

  lemma {:induction false} SearchDigits(d: seq<bv8>, more: seq<bv8>, s: seq<bv8>)
    requires |d| + |more| == 14 && more != [] && AllHex(d) && AllHex(more)
    ensures Search(3, d, more + s) == Found(d + more, s) && CollectDigits(d, more + s) == Found(d + more, s)
    decreases |more|
  {
    hide IsHexDigit;
    assert (more + s)[1..] == more[1..] + s;
    if |more| == 1 {
      assert more == [more[0]] && more[1..] + s == s;
      assert CollectDigits(d + more, s) == Found(d + more, s);
    } else {
      SearchDigits(d + [more[0]], more[1..], s);
      assert d + [more[0]] + more[1..] == d + more;
    }
  }

  lemma {:induction false} SkipAll(t: seq<bv8>, s: seq<bv8>)
    requires forall i :: 0 <= i < |t| ==> t[i] == CR || t[i] == LF || t[i] == XON
    ensures SkipTrailer(t + s) == SkipTrailer(s)
    decreases |t|
  {
    if t == [] {
      assert t + s == s;
    } else {
      assert (t + s)[1..] == t[1..] + s;
      SkipAll(t[1..], s);
    }
  }

  /** Both header readers get every header that was sent, after any noise without a ZPAD: the
      one in C stops right after the digits, the one in Python also eats the trailer. */
  lemma HeaderRoundTrip(kind: bv8, pos: bv32, noise: seq<bv8>, rest: seq<bv8>)
    requires NoPad(noise)
    ensures var s := noise + (EncodeHeader(kind, pos) + rest);
      ReadHeader(s) == Received(Header(kind, pos), Trailer(kind) + rest) &&
      ReadAnyHeader(s) == Received(Header(kind, pos), SkipTrailer(rest))
  {
    hide Search, WaitPad, CollectDigits, SkipTrailer, Digits, ParseDigits, IsHexDigit, NoPad;
    var d := Digits(kind, pos);
    var after := Trailer(kind) + rest;
    DigitsBack(kind, pos);
    SearchNoise(noise, EncodeHeader(kind, pos) + rest);
    assert EncodeHeader(kind, pos) + rest == [ZPAD, ZPAD, ZDLE, ZHEX] + (d + after);
    SearchStart(d + after);
    SearchDigits([], d, after);
    assert [] + d == d;
    SkipAll(Trailer(kind), rest);
  }

  // ---- The sender and the receivers ----

  lemma EscapedMore(s: seq<bv8>, b: bv8)
    ensures EscapedAll(s + [b]) == EscapedAll(s) + Escaped(b)
    decreases |s|
  {
    hide Escaped;
    if s == [] {
      assert [b][1..] == [];
      assert [] + [b] == [b];
      assert EscapedAll([b]) == Escaped(b) + [];
    } else {
      assert (s + [b])[1..] == s[1..] + [b];
      EscapedMore(s[1..], b);
    }
  }

  lemma UpdateMore(s: seq<bv8>, b: bv8)
    ensures UpdateAll(0, s + [b]) == Update(UpdateAll(0, s), b)
  {
    hide Update;
    assert (s + [b])[..|s|] == s;
  }

  lemma NothingYet()
    ensures EscapedAll([]) == [] && UpdateAll(0, []) == 0
  {
  }

  /** zm_send_data; the result is what goes to fossil_tx. */
  method SendData(tab: array<bv16>, data: seq<bv8>, frameend: bv8) returns (out: seq<bv8>)
    requires IsTable(tab[..])
    ensures out == EncodeData(data, frameend)
  {
    hide Escaped, Update, IsTable, EscapedAll, UpdateAll;
    out := [];
    var crc: bv16 := 0;
    NothingYet();
    var i := 0;
    while i < |data|
      invariant 0 <= i <= |data|
      invariant out == EscapedAll(data[..i]) && crc == UpdateAll(0, data[..i])
    {
      assert data[..i + 1] == data[..i] + [data[i]];
      EscapedMore(data[..i], data[i]);
      UpdateMore(data[..i], data[i]);
      crc := CrcUpdate(tab, crc, data[i]);
      out := out + Escaped(data[i]);
      i := i + 1;
    }
    assert data[..i] == data;
    UpdateMore(data, frameend);
    crc := CrcUpdate(tab, crc, frameend);
    out := out + [ZDLE, frameend];
    crc := CrcUpdate(tab, crc, 0);
    crc := CrcUpdate(tab, crc, 0);
    out := out + Escaped(Hi(crc));
    out := out + Escaped(Lo(crc));
    SumOf(data + [frameend]);
    assert out == EscapedAll(data) + [ZDLE, frameend] + (Escaped(Hi(crc)) + Escaped(Lo(crc)));
  }

  lemma SumOf(s: seq<bv8>)
    ensures Crc(s) == Update(Update(UpdateAll(0, s), 0), 0)
  {
    hide Update, UpdateAll;
  }

  /** _crc16 and the header checksum loops. */
  method Checksum(tab: array<bv16>, s: seq<bv8>) returns (crc: bv16)
    requires IsTable(tab[..])
    ensures crc == Crc(s)
  {
    hide Update, IsTable, UpdateAll;
    crc := 0;
    NothingYet();
    var i := 0;
    while i < |s|
      invariant 0 <= i <= |s| && crc == UpdateAll(0, s[..i])
    {
      assert s[..i + 1] == s[..i] + [s[i]];
      UpdateMore(s[..i], s[i]);
      crc := CrcUpdate(tab, crc, s[i]);
      i := i + 1;
    }
    assert s[..i] == s;
    crc := CrcUpdate(tab, crc, 0);
    crc := CrcUpdate(tab, crc, 0);
  }

  lemma Nibbles(crc: bv16)
    ensures ((crc >> 12) & 0x0F) as bv8 == Hi(crc) >> 4 && ((crc >> 8) & 0x0F) as bv8 == Hi(crc) & 0x0F
    ensures ((crc >> 4) & 0x0F) as bv8 == Lo(crc) >> 4 && (crc & 0x0F) as bv8 == Lo(crc) & 0x0F
  {
  }

  lemma {:induction false} PairsConcat(x: seq<bv8>, y: seq<bv8>)
    ensures Pairs(x + y) == Pairs(x) + Pairs(y)
    decreases |x|
  {
    hide HexPair;
    if x == [] {
      assert x + y == y;
    } else {
      assert (x + y)[1..] == x[1..] + y;
      PairsConcat(x[1..], y);
    }
  }

  lemma OnePair(b: bv8)
    ensures Pairs([b]) == HexPair(b)
  {
    hide HexPair;
    assert [b][1..] == [];
    assert HexPair(b) + [] == HexPair(b);
  }

  /** The four digits of a checksum, highest first. */
  method CrcDigits(crc: bv16) returns (d: seq<bv8>)
    ensures d == Pairs([Hi(crc), Lo(crc)])
  {
    Nibbles(crc);
    d := [HexDigit(((crc >> 12) & 0x0F) as bv8), HexDigit(((crc >> 8) & 0x0F) as bv8),
          HexDigit(((crc >> 4) & 0x0F) as bv8), HexDigit((crc & 0x0F) as bv8)];
    hide HexDigit, Pairs, Hi, Lo;
    PairsConcat([Hi(crc)], [Lo(crc)]);
    OnePair(Hi(crc));
    OnePair(Lo(crc));
    assert [Hi(crc), Lo(crc)] == [Hi(crc)] + [Lo(crc)];
  }

  /** zm_send_hex_hdr. */
  method SendHexHeader(tab: array<bv16>, kind: bv8, pos: bv32) returns (out: seq<bv8>)
    requires IsTable(tab[..])
    ensures out == EncodeHeader(kind, pos)
  {
    hide IsTable, Crc, HexDigit, HexPair, Pairs, Hi, Lo, HeaderBytes;
    var hdr := HeaderBytes(kind, pos);
    var crc := Checksum(tab, hdr);
    out := [];
    NoPairs();
    var i := 0;
    while i < 5
      invariant 0 <= i <= 5 && out == Pairs(hdr[..i])
    {
      assert hdr[..i + 1] == hdr[..i] + [hdr[i]];
      PairsConcat(hdr[..i], [hdr[i]]);
      OnePair(hdr[i]);
      out := out + HexPair(hdr[i]);
      i := i + 1;
    }
    assert hdr[..5] == hdr;
    var digits := CrcDigits(crc);
    PairsConcat(hdr, [Hi(crc), Lo(crc)]);
    out := [ZPAD, ZPAD, ZDLE, ZHEX] + (out + digits) + [CR, LF];
    if kind != ZFIN {
      out := out + [XON];
    }
    assert out == [ZPAD, ZPAD, ZDLE, ZHEX] + Digits(kind, pos) + Trailer(kind);
  }

  lemma NoPairs()
    ensures Pairs([]) == []
  {
  }

  function Nibbled(a: bv8, b: bv8, c: bv8, d: bv8): bv16
  {
    ((a as bv16) << 12) | ((b as bv16) << 8) | ((c as bv16) << 4) | (d as bv16)
  }

  /** The four digits of a checksum, each in its place. */
  lemma FourNibbles(a: bv8, b: bv8, c: bv8, d: bv8)
    requires IsHexDigit(a) && IsHexDigit(b) && IsHexDigit(c) && IsHexDigit(d)
    ensures Nibbled(HexValue(a), HexValue(b), HexValue(c), HexValue(d)) == Word(HexByte(a, b), HexByte(c, d))
  {
  }

  /** The loop that puts the header's bytes together. */
  method HeaderOf(hexbuf: seq<bv8>) returns (hdr: array<bv8>)
    requires |hexbuf| == 14
    ensures hdr[..] == HexBytes(hexbuf)
  {
    hide HexByte;
    hdr := new bv8[5];
    for i := 0 to 5
      invariant forall k :: 0 <= k < i ==> hdr[k] == HexByte(hexbuf[2 * k], hexbuf[2 * k + 1])
    {
      hdr[i] := HexByte(hexbuf[2 * i], hexbuf[2 * i + 1]);
    }
  }

  /** The loop over the checksum digits. */
  method ReceivedCrc(hexbuf: seq<bv8>) returns (crc: bv16)
    requires |hexbuf| == 14 && AllHex(hexbuf)
    ensures crc == Word(HexByte(hexbuf[10], hexbuf[11]), HexByte(hexbuf[12], hexbuf[13]))
  {
    hide HexValue, HexByte, IsHexDigit, Word;
    var c := new bv8[4];
    for i := 0 to 4
      invariant forall k :: 0 <= k < i ==> c[k] == HexValue(hexbuf[10 + k])
    {
      c[i] := HexValue(hexbuf[10 + i]);
    }
    FourNibbles(hexbuf[10], hexbuf[11], hexbuf[12], hexbuf[13]);
    crc := Nibbled(c[0], c[1], c[2], c[3]);
  }

  /** The decoding of fourteen digits at the end of both header readers. */
  method DecodeDigits(tab: array<bv16>, hexbuf: seq<bv8>) returns (h: Header)
    requires IsTable(tab[..]) && |hexbuf| == 14 && AllHex(hexbuf)
    ensures h == ParseDigits(hexbuf)
  {
    hide IsTable, Crc, HexByte, AllHex, Word, Position, HexBytes;
    var hdr := HeaderOf(hexbuf);
    var received := ReceivedCrc(hexbuf);
    var computed := Checksum(tab, hdr[..]);
    if computed != received {
      return BadCrc;
    }
    return Header(hdr[0], Position(hdr[1], hdr[2], hdr[3], hdr[4]));
  }

  /** The buffer of the Python receiver; nothing more arrives once it is empty. */
  class Receiver {
    var buf: seq<bv8>

    constructor (arrived: seq<bv8>)
      ensures buf == arrived
    {
      buf := arrived;
    }

    /** _get_byte, and the unescaping around it for checksum bytes. */
    method GetUnescapedByte() returns (u: Unescaped)
      modifies this
      ensures u == GetUnescaped(old(buf))
      ensures u.Some? ==> buf == u.rest
      ensures |buf| <= |old(buf)|
    {
      if buf == [] {
        return None;
      }
      var b := buf[0];
      buf := buf[1..];
      if b == ZDLE {
        if buf == [] {
          return None;
        }
        b := buf[0] ^ 0x40;
        buf := buf[1..];
      }
      return Some(b, buf);
    }

    /** _wait_for_zpad: the byte that says how the header is encoded, or -1. */
    method WaitForPad() returns (enc: Unescaped)
      modifies this
      ensures enc == WaitPad(0, old(buf)) && (enc.Some? ==> buf == enc.rest)
    {
      var state := 0;
      while buf != []
        invariant 0 <= state <= 2 && WaitPad(state, buf) == WaitPad(0, old(buf))
        decreases |buf|
      {
        var b := buf[0];
        buf := buf[1..];
        if state == 0 {
          state := if b == ZPAD then 1 else 0;
        } else if state == 1 {
          state := if b == ZPAD then 1 else if b == ZDLE then 2 else 0;
        } else {
          return Some(b, buf);
        }
      }
      return None;
    }

    /** _recv_hex_header. */
    method RecvDigits(tab: array<bv16>) returns (r: Received)
      requires IsTable(tab[..])
      modifies this
      ensures r == ReadDigits(old(buf)) && (r.Received? ==> buf == r.rest)
    {
      hide IsHexDigit, IsTable, ParseDigits;
      var digits: seq<bv8> := [];
      while |digits| < 14 && buf != []
        invariant |digits| <= 14 && AllHex(digits) && CollectDigits(digits, buf) == CollectDigits([], old(buf))
        decreases |buf|
      {
        if IsHexDigit(buf[0]) {
          digits := digits + [buf[0]];
        }
        buf := buf[1..];
      }
      if |digits| < 14 {
        return NoHeader;
      }
      ghost var rest := buf;
      while buf != [] && (buf[0] == CR || buf[0] == LF || buf[0] == XON)
        invariant SkipTrailer(buf) == SkipTrailer(rest)
        decreases |buf|
      {
        buf := buf[1..];
      }
      var h := DecodeDigits(tab, digits);
      return Received(h, buf);
    }

    /** recv_header. */
    method RecvHeader(tab: array<bv16>) returns (r: Received)
      requires IsTable(tab[..])
      modifies this
      ensures r == ReadAnyHeader(old(buf)) && (r != NoHeader ==> buf == r.rest)
    {
      hide IsTable, WaitPad, CollectDigits, SkipTrailer;
      var enc := WaitForPad();
      if enc.None? {
        return NoHeader;
      }
      if enc.b != ZHEX {
        return OtherKind(enc.b, buf);
      }
      r := RecvDigits(tab);
    }

    /** recv_data_subpacket. */
    method RecvDataSubpacket(tab: array<bv16>) returns (p: Packet)
      requires IsTable(tab[..])
      modifies this
      ensures p == DecodeData([], old(buf))
      ensures !p.Timeout? ==> buf == p.rest
    {
      hide IsTable, Crc, IsEnd, GetUnescaped, Word;
      var data: seq<bv8> := [];
      while buf != []
        invariant DecodeData(data, buf) == DecodeData([], old(buf))
        decreases |buf|
      {
        var b := buf[0];
        if b == ZDLE {
          if |buf| < 2 {
            return Timeout;
          }
          var b2 := buf[1];
          if IsEnd(b2) {
            buf := buf[2..];
            p := CheckSum(tab, data, b2);
            return;
          }
          data := data + [b2 ^ 0x40];
          buf := buf[2..];
        } else {
          data := data + [b];
          buf := buf[1..];
        }
      }
      return Timeout;
    }

    /** The end of a subpacket: the two checksum bytes against the computed one. */
    method CheckSum(tab: array<bv16>, data: seq<bv8>, frameend: bv8) returns (p: Packet)
      requires IsTable(tab[..])
      modifies this
      ensures p == CheckCrc(data, frameend, old(buf))
      ensures !p.Timeout? ==> buf == p.rest
    {
      hide IsTable, Crc, GetUnescaped, Word;
      var crc := Checksum(tab, data + [frameend]);
      var hi := GetUnescapedByte();
      if hi.None? {
        return Timeout;
      }
      var lo := GetUnescapedByte();
      if lo.None? {
        return Timeout;
      }
      if crc != Word(hi.b, lo.b) {
        return Mismatch(buf);
      }
      return Packet(data, frameend, buf);
    }
  }

  /** zm_recv_hex_hdr up to the fourteenth digit, over the bytes that arrive. */
  method FindDigits(s: seq<bv8>) returns (f: Found)
    ensures f == Search(0, [], s)
  {
    hide IsHexDigit;
    var state := 0;
    var digits: seq<bv8> := [];
    var i := 0;
    assert s[0..] == s;
    while i < |s|
      invariant 0 <= i <= |s| && 0 <= state <= 3 && |digits| < 14 && AllHex(digits)
      invariant Search(0, [], s) == Search(state, digits, s[i..])
    {
      var b := s[i];
      i := i + 1;
      assert s[i - 1..][1..] == s[i..];
      if state == 0 {
        if b == ZPAD {
          state := 1;
        }
      } else if state == 1 {
        state := if b == ZPAD then 1 else if b == ZDLE then 2 else 0;
      } else if state == 2 {
        if b == ZHEX {
          state, digits := 3, [];
        } else {
          state := 0;
        }
      } else if IsHexDigit(b) {
        digits := digits + [b];
        if |digits| == 14 {
          return Found(digits, s[i..]);
        }
      } else if b != CR && b != LF && b != XON {
        state := 0;
      }
    }
    return Ended;
  }

  /** zm_recv_hex_hdr. */
  method RecvHexHeader(tab: array<bv16>, s: seq<bv8>) returns (r: Received)
    requires IsTable(tab[..])
    ensures r == ReadHeader(s)
  {
    hide IsTable, Search, ParseDigits, AllHex;
    var f := FindDigits(s);
    if f.Ended? {
      return NoHeader;
    }
    var h := DecodeDigits(tab, f.digits);
    return Received(h, f.rest);
  }
}
