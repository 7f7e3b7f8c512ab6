/** What the ZMODEM senders put on the line, byte by byte. */
module ZmodemLine {
  import opened Crc16
  import opened Zmodem

  // ---- Data subpackets ----

  /** DLE, XON and XOFF with either parity, and the Telnet escape. */
  const CONTROLS: set<bv8> := {0x10, 0x11, 0x13, 0x90, 0x91, 0x93, 0xFF}

  /** ZDLE and the controls are sent as ZDLE and the byte with bit 6 turned over, any other byte as itself. */
  lemma EscapedExact(b: bv8)
    ensures Escaped(b) == if b in CONTROLS || b == 0x18 then [0x18, b ^ 0x40] else [b]
  {
  }

  /** The four frame ends, h to k. */
  lemma EndsExact(b: bv8)
    ensures IsEnd(b) <==> b in {0x68, 0x69, 0x6A, 0x6B}
  {
  }

  predicate Clean(s: seq<bv8>)
  {
    forall i :: 0 <= i < |s| ==> s[i] !in CONTROLS
  }

  lemma FlippedClean(b: bv8)
    requires b in CONTROLS || b == 0x18
    ensures b ^ 0x40 !in CONTROLS
  {
  }

  lemma OneClean(b: bv8)
    ensures Clean(Escaped(b))
  {
    EscapedExact(b);
    if b in CONTROLS || b == 0x18 {
      FlippedClean(b);
      assert 0x18 !in CONTROLS;
    }
    hide Escaped;
  }

  lemma {:induction false} AllClean(s: seq<bv8>)
    ensures Clean(EscapedAll(s))
    decreases |s|
  {
    hide Escaped;
    if s != [] {
      OneClean(s[0]);
      AllClean(s[1..]);
    }
  }

  /** None of the controls is on the line, whatever the data and the checksum are. */
  lemma NoControls(data: seq<bv8>, frameend: bv8)
    requires frameend in {0x68, 0x69, 0x6A, 0x6B}
    ensures forall i :: 0 <= i < |EncodeData(data, frameend)| ==> EncodeData(data, frameend)[i] !in CONTROLS
  {
    assert Clean([ZDLE, frameend]);
    hide Escaped, EscapedAll, Crc, Hi, Lo;
    var crc := Crc(data + [frameend]);
    AllClean(data);
    OneClean(Hi(crc));
    OneClean(Lo(crc));
  }

  // ---- Hex headers ----

  /** 0 to 9 and a to f, whose values the readers take back; they take A to F as well. */
  lemma HexExact(n: bv8)
    requires n < 16
    ensures HexDigit(n) == if n <= 9 then 0x30 + n else 0x61 + (n - 10)
    ensures n <= 9 ==> HexValue(0x30 + n) == n
    ensures n > 9 ==> HexValue(0x61 + (n - 10)) == n && HexValue(0x41 + (n - 10)) == n
  {
  }

  /** Two pads, ZDLE and the hex mark in front; CR, LF and, unless the header is ZFIN, XON behind. */
  lemma HeaderFrame(kind: bv8, pos: bv32)
    ensures var h, n := EncodeHeader(kind, pos), if kind == 8 then 20 else 21;
      |h| == n && h[..4] == [0x2A, 0x2A, 0x18, 0x42] && h[18..] == if kind == 8 then [0x0D, 0x0A] else [0x0D, 0x0A, 0x11]
  {
    DigitsBack(kind, pos);
    hide Digits;
  }

  lemma FivePairs(a: bv8, b: bv8, c: bv8, d: bv8, e: bv8)
    ensures Pairs([a, b, c, d, e]) == HexPair(a) + HexPair(b) + HexPair(c) + HexPair(d) + HexPair(e)
  {
    hide HexPair;
    PairsConcat([a, b, c, d], [e]);
    PairsConcat([a, b, c], [d]);
    PairsConcat([a, b], [c]);
    PairsConcat([a], [b]);
    OnePair(a);
    OnePair(b);
    OnePair(c);
    OnePair(d);
    OnePair(e);
    assert [a, b] == [a] + [b] && [a, b, c] == [a, b] + [c];
    assert [a, b, c, d] == [a, b, c] + [d] && [a, b, c, d, e] == [a, b, c, d] + [e];
  }

  lemma FirstPairs()
    ensures HexPair(9) == [0x30, 0x39] && HexPair(1) == [0x30, 0x31] && HexPair(2) == [0x30, 0x32]
    ensures HexPair(3) == [0x30, 0x33] && HexPair(4) == [0x30, 0x34]
  {
  }

  lemma FirstBytes()
    ensures HeaderBytes(9, 0x04030201) == [9, 1, 2, 3, 4]
  {
  }

  /** The digits of a header of type 9 (ZRPOS) at position 04030201h, up to the checksum. */
  lemma HeaderDigits()
    ensures var e := EncodeHeader(9, 0x04030201);
      |e| >= 14 && e[4..14] == [0x30, 0x39, 0x30, 0x31, 0x30, 0x32, 0x30, 0x33, 0x30, 0x34]
  {
    var h: seq<bv8> := [9, 1, 2, 3, 4];
    FirstBytes();
    FirstPairs();
    hide HeaderBytes, HexPair, Hi, Lo, Crc, Pairs;
    FivePairs(9, 1, 2, 3, 4);
    PairsConcat(h, [Hi(Crc(h)), Lo(Crc(h))]);
    DigitsBack(9, 0x04030201);
    var d := Digits(9, 0x04030201);
    assert d[..10] == Pairs(h);
    assert EncodeHeader(9, 0x04030201)[4..14] == d[..10];
  }

  /** The last four digits are the checksum of the five bytes, high half first. */
  lemma ChecksumDigits(kind: bv8, pos: bv32)
    ensures var h := EncodeHeader(kind, pos);
      |h| >= 18 && ((HexByte(h[14], h[15]) as bv16) << 8) | (HexByte(h[16], h[17]) as bv16) == Crc(HeaderBytes(kind, pos))
  {
    var h := HeaderBytes(kind, pos);
    var crc := Crc(h);
    var all := h + [Hi(crc), Lo(crc)];
    WordOfBytes(crc);
    hide HeaderBytes, HexDigit, HexByte, IsHexDigit, Hi, Lo, Crc, Pairs;
    PairAt(all, 5);
    PairAt(all, 6);
    var d := Digits(kind, pos);
    var e := EncodeHeader(kind, pos);
    assert e[14] == d[10] && e[15] == d[11] && e[16] == d[12] && e[17] == d[13];
  }

  // ---- Finding a header in noise ----

  /** What is searched first is searched on; it ends in some state or finds its own header. */
  lemma {:induction false} SearchOn(st: nat, d: seq<bv8>, noise: seq<bv8>, s: seq<bv8>) returns (st': nat, d': seq<bv8>)
    requires st <= 3 && |d| < 14 && AllHex(d)
    ensures st' <= 3 && |d'| < 14 && AllHex(d')
    ensures Search(st, d, noise).Ended? ==> Search(st, d, noise + s) == Search(st', d', s)
    ensures Search(st, d, noise).Found? ==>
      Search(st, d, noise + s) == Found(Search(st, d, noise).digits, Search(st, d, noise).rest + s)
    decreases |noise|
  {
    hide IsHexDigit;
    if noise == [] {
      assert noise + s == s;
      return st, d;
    }
    var b, rest := noise[0], noise[1..];
    assert (noise + s)[1..] == rest + s;
    st', d' := 0, d;
    if st == 3 && IsHexDigit(b) {
      if |d| < 13 {
        st', d' := SearchOn(3, d + [b], rest, s);
      }
    } else if st == 2 && b == ZHEX {
      st', d' := SearchOn(3, [], rest, s);
    } else {
      var next := if st == 3 then (if b == CR || b == LF || b == XON then 3 else 0)
        else if st == 2 then 0 else if b == ZPAD then 1 else if st == 1 && b == ZDLE then 2 else 0;
      st', d' := SearchOn(next, d, rest, s);
    }
  }

  /** The two pads bring the search from any state to the digits. */
  lemma SearchSync(st: nat, d: seq<bv8>, s: seq<bv8>)
    requires st <= 3 && |d| < 14 && AllHex(d)
    ensures Search(st, d, [ZPAD, ZPAD, ZDLE, ZHEX] + s) == Search(3, [], s)
  {
    assert !IsHexDigit(ZPAD);
    hide IsHexDigit;
    var t := [ZPAD, ZPAD, ZDLE, ZHEX] + s;
    var t1, t2, t3 := [ZPAD, ZDLE, ZHEX] + s, [ZDLE, ZHEX] + s, [ZHEX] + s;
    assert t[1..] == t1 && t1[1..] == t2 && t2[1..] == t3 && t3[1..] == s;
    assert Search(st, d, t) == Search(if st <= 1 then 1 else 0, d, t1);
    assert Search(0, d, t1) == Search(1, d, t2) == Search(1, d, t1);
    assert Search(1, d, t2) == Search(2, d, t3) == Search(3, [], s);
  }

  /** The C reader gets a header after any noise that holds no header of its own, which would be
      taken instead: a lone pad, a broken or an unfinished header in front do no harm. */
  lemma NoiseExact(kind: bv8, pos: bv32, noise: seq<bv8>, rest: seq<bv8>)
    ensures var s := EncodeHeader(kind, pos) + rest;
      ReadHeader(noise + s) ==
        if ReadHeader(noise) == NoHeader then Received(Header(kind, pos), Trailer(kind) + rest)
        else Received(ReadHeader(noise).h, ReadHeader(noise).rest + s)
  {
    hide Search, Digits, ParseDigits, IsHexDigit;
    var d := Digits(kind, pos);
    var after := Trailer(kind) + rest;
    DigitsBack(kind, pos);
    assert EncodeHeader(kind, pos) + rest == [ZPAD, ZPAD, ZDLE, ZHEX] + (d + after);
    var st, part := SearchOn(0, [], noise, EncodeHeader(kind, pos) + rest);
    SearchSync(st, part, d + after);
    SearchDigits([], d, after);
    assert [] + d == d;
  }

  /** A pad right in front of ZDLE at index i. */
  predicate PadAt(s: seq<bv8>, i: nat)
  {
    i + 1 < |s| && s[i] == 0x2A && s[i + 1] == 0x18
  }

  /** _wait_for_zpad stops behind the first pad that stands right in front of ZDLE. */
  lemma {:induction false} WaitExact(st: nat, s: seq<bv8>, i: nat)
    requires st <= 1 && i + 2 < |s| && PadAt(s, i) && (forall j :: 0 <= j < i ==> !PadAt(s, j))
    requires st == 1 ==> s[0] != 0x18
    ensures WaitPad(st, s) == Some(s[i + 2], s[i + 3..])
    decreases |s|
  {
    if i == 0 {
      assert s[1..][1..] == s[2..] && s[2..][1..] == s[3..];
      assert WaitPad(st, s) == WaitPad(1, s[1..]) == WaitPad(2, s[2..]);
    } else {
      forall j | 0 <= j < i - 1 ensures !PadAt(s[1..], j) {
        assert !PadAt(s, j + 1);
      }
      assert !PadAt(s, 0);
      assert s[1..][i + 2..] == s[i + 3..];
      WaitExact(if s[0] == 0x2A then 1 else 0, s[1..], i - 1);
    }
  }

  /** The Python reader gets a header after any noise without such a pair. A pair at the end of the
      noise makes it take the first pad of the header for the kind of another encoding. */
  lemma PairExact(kind: bv8, pos: bv32, noise: seq<bv8>, rest: seq<bv8>)
    requires forall i :: 0 <= i < |noise| - 2 ==> !PadAt(noise, i)
    ensures var s := noise + (EncodeHeader(kind, pos) + rest);
      ReadAnyHeader(s) ==
        if |noise| >= 2 && PadAt(noise, |noise| - 2) then OtherKind(0x2A, s[|noise| + 1..])
        else Received(Header(kind, pos), SkipTrailer(rest))
  {
    hide Search, WaitPad, CollectDigits, SkipTrailer, Digits, ParseDigits, IsHexDigit;
    var s := noise + (EncodeHeader(kind, pos) + rest);
    var d := Digits(kind, pos);
    var n := |noise|;
    DigitsBack(kind, pos);
    assert s == noise + [ZPAD, ZPAD, ZDLE, ZHEX] + (d + (Trailer(kind) + rest));
    assert s[n] == 0x2A && s[n + 1] == 0x2A && s[n + 2] == 0x18 && s[n + 3] == 0x42;
    forall i | 0 <= i < n - 2 ensures !PadAt(s, i) {
      assert !PadAt(noise, i);
    }
    if n >= 2 && PadAt(noise, n - 2) {
      WaitExact(0, s, n - 2);
    } else {
      assert n >= 2 ==> !PadAt(s, n - 2);
      WaitExact(0, s, n + 1);
      assert s[n + 4..] == d + (Trailer(kind) + rest);
      SearchDigits([], d, Trailer(kind) + rest);
      assert [] + d == d;
      SkipAll(Trailer(kind), rest);
    }
  }
}
