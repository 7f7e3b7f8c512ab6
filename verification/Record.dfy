/**
 The TLS 1.2 record layer for TLS_RSA_WITH_AES_128_CBC_SHA: MAC, pad, encrypt, and back.
 The byte format is given by EncodeRecord and DecodeRecord; the two methods are proved
 against them and they are proved to undo each other.
 */
module Record {
  import opened Octets
  import opened Aes
  import opened Cbc
  import opened Prf

  const HANDSHAKE: bv8 := 22
  const APPLICATION: bv8 := 23
  /** MAX_RECORD + 2048: the longest body the reader accepts. */
  const MAX_BODY := 18432
  /** Above this length the MAC input would overflow a 16-bit `int`. */
  const MAX_DATA := 32691

  // ---- The format ----

  function Put16(v: nat): (b: seq<bv8>)
    ensures |b| == 2
  {
    [Byte(v / 256), Byte(v)]
  }

  function Get16(hi: bv8, lo: bv8): int
  {
    (hi as int) * 256 + lo as int
  }

  /** The 64-bit sequence number, of which the code keeps the low 32 bits. */
  function SeqBytes(n: nat): (b: seq<bv8>)
    ensures |b| == 8
  {
    [0, 0, 0, 0, Byte(n / 0x100_0000), Byte(n / 0x1_0000), Byte(n / 0x100), Byte(n)]
  }

  function MacInput(seqno: nat, ct: bv8, data: seq<bv8>): (m: seq<bv8>)
    ensures |m| == 13 + |data|
  {
    SeqBytes(seqno) + [ct, 0x03, 0x03] + Put16(|data|) + data
  }

  /** The padding length for n bytes of data and a 20-byte MAC. */
  function PadLen(n: nat): (p: nat)
    ensures p < 16 && (n + 20 + p + 1) % 16 == 0
  {
    var p := 16 - (n + 20 + 1) % 16;
    if p == 16 then 0 else p
  }

  function Padding(p: nat): (s: seq<bv8>)
    ensures |s| == p + 1
  {
    seq(p + 1, _ => Byte(p))
  }

  /** data || MAC || padding (GenericBlockCipher, section 6.2.3.2 of RFC 5246). */
  function Protected(mackey: seq<bv8>, seqno: nat, ct: bv8, data: seq<bv8>): (p: seq<bv8>)
    ensures |p| == |data| + 20 + PadLen(|data|) + 1
  {
    data + HmacSha1(mackey, MacInput(seqno, ct, data)) + Padding(PadLen(|data|))
  }

  function Header(ct: bv8, len: nat): (h: seq<bv8>)
    ensures |h| == 5
  {
    [ct, 0x03, 0x03] + Put16(len)
  }

  /** What a writer with the cipher active sends after the header. */
  function Payload(key: seq<bv8>, mackey: seq<bv8>, seqno: nat, ct: bv8, iv: seq<bv8>, data: seq<bv8>): (p: seq<bv8>)
    requires KeyLength(|key|) && |iv| == 16
    ensures |p| == 16 + |data| + 20 + PadLen(|data|) + 1
  {
    iv + CbcEnc(key, BlockWords(iv), Protected(mackey, seqno, ct, data))
  }

  /** One direction of a connection: whether its cipher is on, its keys and its counter. */
  datatype Direction = Direction(active: bool, key: seq<bv8>, mackey: seq<bv8>, seqno: nat)

  predicate Usable(d: Direction)
  {
    KeyLength(|d.key|)
  }

  function Next(d: Direction): Direction
  {
    d.(seqno := (d.seqno + 1) % 0x1_0000_0000)
  }

  /** The bytes one call of the writer sends. */
  function EncodeRecord(d: Direction, ct: bv8, iv: seq<bv8>, data: seq<bv8>): seq<bv8>
    requires Usable(d) && |iv| == 16
  {
    if d.active then
      var p := Payload(d.key, d.mackey, d.seqno, ct, iv, data);
      Header(ct, |p|) + p
    else
      Header(ct, |data|) + data
  }

  /** What one call of the reader finds at the front of the stream: a record, or -1. In both
      cases rest is what stays unread. */
  datatype Outcome =
    | Failed(rest: seq<bv8>)
    | Received(ct: bv8, data: seq<bv8>, after: Direction, rest: seq<bv8>)

  /** Whether the reader decrypts a record of this type. */
  predicate Opens(d: Direction, ct: bv8)
  {
    d.active && (ct == HANDSHAKE || ct == APPLICATION)
  }

  /** The length of the content of a decrypted body, or -1: what is in front of the MAC and
      the padding, if there is room for them and the MAC is right. */
  function ContentLength(mackey: seq<bv8>, seqno: nat, ct: bv8, plain: seq<bv8>): (n: int)
    requires |plain| >= 1
    ensures n == -1 || 0 <= n <= |plain| - 21
  {
    var n := |plain| - 20 - plain[|plain| - 1] as int - 1;
    if n < 0 || plain[n..n + 20] != HmacSha1(mackey, MacInput(seqno, ct, plain[..n])) then -1 else n
  }

  function DecodeBody(d: Direction, ct: bv8, body: seq<bv8>, rest: seq<bv8>): Outcome
    requires Usable(d)
  {
    if !Opens(d, ct) then Received(ct, body, d, rest)
    else if |body| < 32 then Failed(rest)
    else
      var plain := CbcDec(d.key, BlockWords(body[..16]), body[16..]);
      var n := ContentLength(d.mackey, d.seqno, ct, plain);
      if n < 0 then Failed(rest) else Received(ct, plain[..n], Next(d), rest)
  }

  /** The front of the stream: an incomplete or oversized record, or a whole one. */
  datatype Frame = Cut(rest: seq<bv8>) | Whole(ct: bv8, body: seq<bv8>, rest: seq<bv8>)

  function NextFrame(s: seq<bv8>): Frame
  {
    if |s| < 5 then Cut([])
    else
      var len := Get16(s[3], s[4]);
      if len > MAX_BODY then Cut(s[5..])
      else if |s| < 5 + len then Cut([])
      else Whole(s[0], s[5..5 + len], s[5 + len..])
  }

  function DecodeRecord(d: Direction, s: seq<bv8>): Outcome
    requires Usable(d)
  {
    match NextFrame(s)
    case Cut(rest) => Failed(rest)
    case Whole(ct, body, rest) => DecodeBody(d, ct, body, rest)
  }

  // ---- Reading undoes writing ----

  lemma Get16Range(hi: bv8, lo: bv8)
    ensures 0 <= Get16(hi, lo) < 65536
  {
  }

  lemma TwoDigits(v: nat)
    requires v < 65536
    ensures v / 256 < 256 && v / 256 * 256 + v % 256 == v
  {
  }

  lemma Get16Put16(v: nat)
    requires v < 65536
    ensures Get16(Put16(v)[0], Put16(v)[1]) == v
  {
    hide Byte;
    ByteNumber(v / 256);
    ByteNumber(v);
    TwoDigits(v);
    assert (v / 256) % 256 == v / 256;
  }

  lemma LastIsPadLen(mackey: seq<bv8>, seqno: nat, ct: bv8, data: seq<bv8>)
    ensures var p := Protected(mackey, seqno, ct, data);
      p[|p| - 1] as int == PadLen(|data|) && |p| % 16 == 0 && |p| >= 32 &&
      p[..|data|] == data && p[|data|..|data| + 20] == HmacSha1(mackey, MacInput(seqno, ct, data))
  {
    hide HmacSha1, Byte, MacInput;
    ByteNumber(PadLen(|data|));
    var p := Protected(mackey, seqno, ct, data);
    assert p[|p| - 1] == Byte(PadLen(|data|));
  }

  /** An opened body gives the data back and steps the counter as the writer did. */
  lemma OpenBody(d: Direction, ct: bv8, iv: seq<bv8>, data: seq<bv8>, rest: seq<bv8>)
    requires Usable(d) && |iv| == 16 && Opens(d, ct)
    ensures DecodeBody(d, ct, Payload(d.key, d.mackey, d.seqno, ct, iv, data), rest) == Received(ct, data, Next(d), rest)
  {
    hide HmacSha1, MacInput, Protected, CbcEnc, CbcDec, BlockWords;
    var body := Payload(d.key, d.mackey, d.seqno, ct, iv, data);
    var plain := Protected(d.mackey, d.seqno, ct, data);
    LastIsPadLen(d.mackey, d.seqno, ct, data);
    CbcRoundTrip(d.key, BlockWords(iv), plain);
    assert body[..16] == iv && body[16..] == CbcEnc(d.key, BlockWords(iv), plain);
  }

  /** The bytes the MAC covers (section 6.2.3.1 of RFC 5246): the counter in 64 bits, the type,
      version 3.3, the length and the data. */
  lemma MacLayout(seqno: nat, ct: bv8, data: seq<bv8>)
    ensures var m := MacInput(seqno, ct, data);
      Number(m[..8]) == seqno % 0x1_0000_0000 && m[8..11] == [ct, 3, 3] && Number(m[11..13]) == |data| % 65536 && m[13..] == data
  {
    SeqNumber(seqno);
    LengthNumber(|data|);
    hide Number, SeqBytes, Put16;
    var m := MacInput(seqno, ct, data);
    assert m[..8] == SeqBytes(seqno) && m[11..13] == Put16(|data|);
  }

  lemma SeqNumber(n: nat)
    ensures Number(SeqBytes(n)) == n % 0x1_0000_0000
  {
    hide Byte, Number;
    var b := SeqBytes(n);
    NoBytes();
    assert b[..4] == [0, 0, 0, 0] && b[..8] == b && n / 1 == n;
    ZeroNumber();
    NumberAt(b, 4, n, 0x100_0000, 1);
    NumberAt(b, 5, n, 0x1_0000, 0x100);
    NumberAt(b, 6, n, 0x100, 0x1_0000);
    NumberAt(b, 7, n, 1, 0x100_0000);
  }

  lemma ZeroNumber()
    ensures Number([0, 0, 0, 0]) == 0
  {
    var z: seq<bv8> := [0, 0, 0, 0];
    assert z[..0] == [];
    assert Number(z[..1]) == 0 by {
      assert z[..1][..0] == [];
    }
    assert Number(z[..2]) == 0 by {
      assert z[..2][..1] == z[..1];
    }
    assert Number(z[..3]) == 0 by {
      assert z[..3][..2] == z[..2];
    }
    assert z[..4] == z;
  }

  lemma LengthNumber(v: nat)
    ensures Number(Put16(v)) == v % 65536
  {
    hide Byte, Number;
    var b := Put16(v);
    NoBytes();
    assert b[..0] == [] && b[..2] == b && v / 1 == v;
    NumberAt(b, 0, v, 0x100, 1);
    NumberAt(b, 1, v, 1, 0x100);
  }

  /** Nothing is left out of the MAC: the bytes determine the counter, the type and the data. */
  lemma MacInputInjective(n: nat, n': nat, ct: bv8, ct': bv8, x: seq<bv8>, x': seq<bv8>)
    requires n < 0x1_0000_0000 && n' < 0x1_0000_0000 && MacInput(n, ct, x) == MacInput(n', ct', x')
    ensures n == n' && ct == ct' && x == x'
  {
    hide Number, MacInput;
    MacLayout(n, ct, x);
    MacLayout(n', ct', x');
    var m := MacInput(n, ct, x);
    assert m[8..11][0] == ct && MacInput(n', ct', x')[8..11][0] == ct';
  }

  /** The record header of section 6.2.1 of RFC 5246, and the content types of its registry. */
  lemma HeaderLayout(ct: bv8, len: nat)
    ensures var h := Header(ct, len);
      h[..3] == [ct, 3, 3] && Number(h[3..]) == len % 65536 && HANDSHAKE == 22 && APPLICATION == 23
  {
    hide Number, Put16;
    LengthNumber(len);
    assert Header(ct, len)[3..] == Put16(len);
  }

  /** What is encrypted (section 6.2.3.2 of RFC 5246): data, MAC, and p + 1 bytes of value p that
      fill up the last cipher block. */
  lemma ProtectedLayout(mackey: seq<bv8>, seqno: nat, ct: bv8, data: seq<bv8>)
    ensures var s := Protected(mackey, seqno, ct, data);
      var p := |s| - |data| - 21;
      |s| % 16 == 0 && 0 <= p < 16 && s[..|data|] == data &&
      s[|data|..|data| + 20] == HmacSha1(mackey, MacInput(seqno, ct, data)) &&
      forall i :: |data| + 20 <= i < |s| ==> s[i] as int == p
  {
    LastIsPadLen(mackey, seqno, ct, data);
    hide HmacSha1, Byte, MacInput, PadLen;
    var p := PadLen(|data|);
    ByteNumber(p);
    var front := data + HmacSha1(mackey, MacInput(seqno, ct, data));
    var s := Protected(mackey, seqno, ct, data);
    assert s == front + Padding(p) && |front| == |data| + 20;
    forall i | |data| + 20 <= i < |s| ensures s[i] as int == p {
      assert s[i] == Padding(p)[i - |front|];
    }
  }

  /** A record that is read at another counter or under another type is accepted exactly when the
      MACs of two different messages coincide; so nothing can be repeated or moved. */
  lemma MovedRecord(d: Direction, n: nat, ct: bv8, ct': bv8, iv: seq<bv8>, data: seq<bv8>, rest: seq<bv8>)
    requires Usable(d) && |iv| == 16 && Opens(d, ct) && Opens(d, ct') && d.seqno < 0x1_0000_0000 && n < 0x1_0000_0000
    ensures var x, y := MacInput(d.seqno, ct, data), MacInput(n, ct', data);
      DecodeBody(d.(seqno := n), ct', Payload(d.key, d.mackey, d.seqno, ct, iv, data), rest).Received? <==>
      HmacSha1(d.mackey, x) == HmacSha1(d.mackey, y)
    ensures n != d.seqno || ct != ct' ==> MacInput(d.seqno, ct, data) != MacInput(n, ct', data)
  {
    hide HmacSha1, MacInput, Protected, CbcEnc, CbcDec, BlockWords;
    var body := Payload(d.key, d.mackey, d.seqno, ct, iv, data);
    var plain := Protected(d.mackey, d.seqno, ct, data);
    LastIsPadLen(d.mackey, d.seqno, ct, data);
    CbcRoundTrip(d.key, BlockWords(iv), plain);
    assert body[..16] == iv && body[16..] == CbcEnc(d.key, BlockWords(iv), plain);
    if MacInput(d.seqno, ct, data) == MacInput(n, ct', data) {
      MacInputInjective(d.seqno, n, ct, ct', data, data);
    }
  }

  lemma HeaderParts(ct: bv8, len: nat, body: seq<bv8>, rest: seq<bv8>)
    requires len < 65536 && |body| == len
    ensures var s := Header(ct, len) + body + rest;
      s[0] == ct && Get16(s[3], s[4]) == len && s[5..5 + len] == body && s[5 + len..] == rest && s[5..] == body + rest
  {
    hide Put16, Get16;
    Get16Put16(len);
    var s := Header(ct, len) + body + rest;
    assert s[3] == Put16(len)[0] && s[4] == Put16(len)[1];
  }

  /** The body a record of this type carries. */
  function BodyOf(d: Direction, ct: bv8, iv: seq<bv8>, data: seq<bv8>): seq<bv8>
    requires Usable(d) && |iv| == 16
  {
    if d.active then Payload(d.key, d.mackey, d.seqno, ct, iv, data) else data
  }

  /** What the reader makes of any record the writer sends: nothing if its body is too long,
      the data for the two types it opens and for everything while the cipher is off, and
      the undecrypted body otherwise. */
  lemma ReadWritten(d: Direction, ct: bv8, iv: seq<bv8>, data: seq<bv8>, rest: seq<bv8>)
    requires Usable(d) && |iv| == 16 && |data| <= MAX_DATA
    ensures DecodeRecord(d, EncodeRecord(d, ct, iv, data) + rest) ==
      var body := BodyOf(d, ct, iv, data);
      if |body| > MAX_BODY then Failed(body + rest)
      else if Opens(d, ct) then Received(ct, data, Next(d), rest)
      else Received(ct, body, d, rest)
  {
    hide Payload, Header, Get16, DecodeBody, PadLen;
    var body := BodyOf(d, ct, iv, data);
    assert PadLen(|data|) < 16;
    HeaderParts(ct, |body|, body, rest);
    if Opens(d, ct) {
      OpenBody(d, ct, iv, data, rest);
    } else {
      PlainBody(d, ct, body, rest);
    }
  }

  lemma PlainBody(d: Direction, ct: bv8, body: seq<bv8>, rest: seq<bv8>)
    requires Usable(d) && !Opens(d, ct)
    ensures DecodeBody(d, ct, body, rest) == Received(ct, body, d, rest)
  {
  }

  /** With the cipher on, a record comes back unchanged exactly when it is a handshake or
      application record of at most 18395 bytes. */
  lemma RoundTripExact(d: Direction, ct: bv8, iv: seq<bv8>, data: seq<bv8>, rest: seq<bv8>)
    requires Usable(d) && d.active && |iv| == 16 && |data| <= MAX_DATA
    ensures DecodeRecord(d, EncodeRecord(d, ct, iv, data) + rest) == Received(ct, data, Next(d), rest)
      <==> (ct == HANDSHAKE || ct == APPLICATION) && |data| <= 18395
  {
    hide DecodeRecord, EncodeRecord, Payload;
    ReadWritten(d, ct, iv, data, rest);
  }

  // ---- Whole conversations ----

  datatype Sent = Sent(ct: bv8, iv: seq<bv8>, data: seq<bv8>)

  predicate Ordinary(r: Sent)
  {
    |r.iv| == 16 && |r.data| <= 16384 && (r.ct == HANDSHAKE || r.ct == APPLICATION)
  }

  function WriteAll(d: Direction, rs: seq<Sent>): seq<bv8>
    requires Usable(d) && forall i :: 0 <= i < |rs| ==> Ordinary(rs[i])
    decreases |rs|
  {
    if rs == [] then []
    else
      assert Ordinary(rs[0]);
      EncodeRecord(d, rs[0].ct, rs[0].iv, rs[0].data) + WriteAll(Step(d), rs[1..])
  }

  /** The state of a direction after one record has been sent. */
  function Step(d: Direction): Direction
  {
    if d.active then Next(d) else d
  }

  /** n calls of the reader: the types and contents they return, and what is left. */
  function ReadAll(d: Direction, s: seq<bv8>, n: nat): (seq<(bv8, seq<bv8>)>, Direction, seq<bv8>)
    requires Usable(d)
    decreases n
  {
    if n == 0 then ([], d, s)
    else
      match DecodeRecord(d, s)
      case Failed(rest) => ([], d, rest)
      case Received(ct, data, d', rest) =>
        DecodeKeepsKeys(d, s);
        var (more, d'', rest') := ReadAll(d', rest, n - 1);
        ([(ct, data)] + more, d'', rest')
  }

  lemma DecodeKeepsKeys(d: Direction, s: seq<bv8>)
    requires Usable(d)
    ensures DecodeRecord(d, s).Received? ==> Usable(DecodeRecord(d, s).after)
  {
    hide CbcDec, HmacSha1, MacInput, Get16;
  }

  function Contents(rs: seq<Sent>): seq<(bv8, seq<bv8>)>
  {
    seq(|rs|, i requires 0 <= i < |rs| => (rs[i].ct, rs[i].data))
  }

  function Advance(d: Direction, n: nat): Direction
    decreases n
  {
    if n == 0 then d else Advance(Step(d), n - 1)
  }

  /** Any sequence of handshake and application records arrives with the same types and
      contents, nothing is left over, and the two counters agree afterwards. */
  lemma {:induction false} Conversation(d: Direction, rs: seq<Sent>, rest: seq<bv8>)
    requires Usable(d) && forall i :: 0 <= i < |rs| ==> Ordinary(rs[i])
    ensures ReadAll(d, WriteAll(d, rs) + rest, |rs|) == (Contents(rs), Advance(d, |rs|), rest)
    decreases |rs|
  {
    hide DecodeRecord, EncodeRecord, Payload;
    if rs == [] {
      assert WriteAll(d, rs) + rest == rest;
    } else {
      var r := rs[0];
      assert Ordinary(r);
      var d' := Step(d);
      var tail := WriteAll(d', rs[1..]) + rest;
      ReadWritten(d, r.ct, r.iv, r.data, tail);
      assert WriteAll(d, rs) + rest == EncodeRecord(d, r.ct, r.iv, r.data) + tail;
      Conversation(d', rs[1..], rest);
      assert Contents(rs) == [(r.ct, r.data)] + Contents(rs[1..]);
    }
  }

  /** With the cipher on, n records move the counter by n modulo 2^32. */
  lemma {:induction false} CounterCounts(d: Direction, n: nat)
    requires d.seqno < 0x1_0000_0000
    ensures Advance(d, n) == d.(seqno := if d.active then (d.seqno + n) % 0x1_0000_0000 else d.seqno)
    decreases n
  {
    if n > 0 {
      CounterCounts(Step(d), n - 1);
    }
  }

  /** A record is taken off the stream whole exactly when its length is at most 18432 and it is all there. */
  lemma FrameExact(s: seq<bv8>)
    requires |s| >= 5
    ensures var n := 256 * (s[3] as int) + s[4] as int;
      NextFrame(s) == if n <= 18432 && |s| >= 5 + n then Whole(s[0], s[5..5 + n], s[5 + n..])
        else Cut(if n <= 18432 then [] else s[5..])
  {
  }
}
