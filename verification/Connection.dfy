/** A TLS connection: its record writer and reader and the application's buffered reads. */
module Connection {
  import opened Octets
  import Powers
  import opened Aes
  import opened Cbc
  import opened Prf
  import opened Record

  /** The socket, as a reliable byte stream in each direction. */
  class Wire {
    var sent: seq<bv8>
    var incoming: seq<bv8>

    /** tls_send_all: everything goes out, or the connection fails after some part of it. */
    method SendAll(b: seq<bv8>) returns (ok: bool)
      modifies `sent
      ensures old(sent) <= sent <= old(sent) + b
      ensures ok <==> sent == old(sent) + b
    {
      var n: nat :| n <= |b|;
      sent := sent + b[..n];
      ok := n == |b|;
    }

    /** tls_recv_all: exactly n bytes, or failure once the peer has no more to send. */
    method RecvAll(n: int) returns (ok: bool, b: seq<bv8>)
      modifies `incoming
      ensures ok <==> n <= |old(incoming)|
      ensures ok && n >= 0 ==> b == old(incoming)[..n] && incoming == old(incoming)[n..]
      ensures n < 0 ==> incoming == old(incoming)
      ensures !ok ==> incoming == []
    {
      b := [];
      if n < 0 {
        return true, b;
      }
      if n > |incoming| {
        incoming := [];
        return false, b;
      }
      b := incoming[..n];
      incoming := incoming[n..];
      return true, b;
    }

    /** Header and body of the next record, as tls_read_record fetches them. */
    method ReadFrame() returns (ok: bool, ct: bv8, body: array<bv8>)
      modifies `incoming
      ensures fresh(body)
      ensures old(NextFrame(incoming)) == if ok then Whole(ct, body[..], incoming) else Cut(incoming)
      ensures ok ==> body.Length <= MAX_BODY
    {
      hide Get16, Powers.Signed;
      ghost var s := incoming;
      ct, body := 0, new bv8[0];
      var hdr;
      ok, hdr := RecvAll(5);
      if !ok {
        return;
      }
      ct := hdr[0];
      Get16Range(hdr[3], hdr[4]);
      var len := Powers.Signed(Get16(hdr[3], hdr[4]));
      if len > MAX_BODY {
        ok := false;
        return;
      }
      var bytes;
      ok, bytes := RecvAll(len);
      if !ok || len < 0 {
        ok := false;
        return;
      }
      body := new bv8[len](i requires 0 <= i < |bytes| => bytes[i]);
      assert body[..] == bytes;
    }
  }

  // ---- The application's reads ----

  const ALERT: bv8 := 21

  /** What vtls_recv answers: -1, or the bytes it copied. */
  datatype Reply = Error | Copied(data: seq<bv8>)

  /** Buffered bytes, receiving direction and unread stream. */
  datatype Inbox = Inbox(pending: seq<bv8>, dir: Direction, incoming: seq<bv8>)

  function Min(a: nat, b: nat): nat
  {
    if a < b then a else b
  }

  /** A new application record is copied as far as it fits and the rest kept. */
  function Deliver(o: Outcome, len: nat): (Reply, seq<bv8>)
    requires o.Received?
  {
    if o.ct == APPLICATION then (Copied(o.data[..Min(len, |o.data|)]), o.data[Min(len, |o.data|)..])
    else if o.ct == ALERT then (Error, [])
    else (Copied([]), [])
  }

  /** One vtls_recv of up to len bytes; ready says whether the socket has data. */
  function Receive(b: Inbox, ready: bool, len: nat): (Reply, Inbox)
    requires Usable(b.dir)
  {
    if b.pending != [] then
      var n := Min(len, |b.pending|);
      (Copied(b.pending[..n]), b.(pending := b.pending[n..]))
    else if !ready then (Copied([]), b)
    else
      match DecodeRecord(b.dir, b.incoming)
      case Failed(rest) => (Error, b.(incoming := rest))
      case Received(ct, data, after, rest) =>
        var (reply, kept) := Deliver(Received(ct, data, after, rest), len);
        (reply, Inbox(kept, after, rest))
  }

  /** The bytes a run of vtls_recv calls returns, up to the first error. */
  function ReceiveAll(b: Inbox, calls: seq<(bool, nat)>): (seq<bv8>, Inbox)
    requires Usable(b.dir)
    decreases |calls|
  {
    if calls == [] then ([], b)
    else
      var (reply, b') := Receive(b, calls[0].0, calls[0].1);
      DecodeKeepsKeys(b.dir, b.incoming);
      if reply.Error? then ([], b')
      else
        var (more, last) := ReceiveAll(b', calls[1..]);
        (reply.data + more, last)
  }

  /** The application bytes of a list of records. */
  function AppData(rs: seq<Sent>): seq<bv8>
    decreases |rs|
  {
    if rs == [] then []
    else (if rs[0].ct == APPLICATION then rs[0].data else []) + AppData(rs[1..])
  }

  /** What a call makes of the next record when nothing is buffered. */
  lemma ReceiveRecord(b: Inbox, len: nat, r: Sent, tail: seq<bv8>)
    requires Usable(b.dir) && b.pending == [] && Ordinary(r)
    requires b.incoming == EncodeRecord(b.dir, r.ct, r.iv, r.data) + tail
    ensures var (reply, b') := Receive(b, true, len);
      b'.dir == Step(b.dir) && b'.incoming == tail && reply.Copied? &&
      reply.data + b'.pending == if r.ct == APPLICATION then r.data else []
  {
    hide DecodeRecord, EncodeRecord, Payload;
    ReadWritten(b.dir, r.ct, r.iv, r.data, tail);
    PayloadLength(b.dir, r);
  }

  lemma FirstRecord(d: Direction, rs: seq<Sent>)
    requires Usable(d) && rs != [] && (forall i :: 0 <= i < |rs| ==> Ordinary(rs[i]))
    ensures Ordinary(rs[0]) && (forall i :: 0 <= i < |rs[1..]| ==> Ordinary(rs[1..][i]))
    ensures Usable(Step(d))
    ensures WriteAll(d, rs) == EncodeRecord(d, rs[0].ct, rs[0].iv, rs[0].data) + WriteAll(Step(d), rs[1..])
    ensures AppData(rs) == (if rs[0].ct == APPLICATION then rs[0].data else []) + AppData(rs[1..])
  {
    hide EncodeRecord;
  }

  lemma ReceiveOne(b: Inbox, ready: bool, len: nat, rs: seq<Sent>) returns (left: seq<Sent>)
    requires Usable(b.dir) && (forall i :: 0 <= i < |rs| ==> Ordinary(rs[i]))
    requires b.incoming == WriteAll(b.dir, rs)
    ensures Usable(Receive(b, ready, len).1.dir)
    ensures forall i :: 0 <= i < |left| ==> Ordinary(left[i])
    ensures var (reply, b') := Receive(b, ready, len);
      b'.incoming == WriteAll(b'.dir, left) &&
      (if reply.Copied? then reply.data else []) + b'.pending + AppData(left) == b.pending + AppData(rs)
  {
    hide DecodeRecord, EncodeRecord, Next, AppData, Ordinary, Deliver;
    left := rs;
    if b.pending == [] && ready {
      if rs == [] {
        NothingThere(b.dir);
      } else {
        FirstRecord(b.dir, rs);
        left := rs[1..];
        hide WriteAll, Receive;
        ReceiveRecord(b, len, rs[0], WriteAll(Step(b.dir), left));
      }
    } else {
      hide WriteAll;
    }
  }

  lemma NothingThere(d: Direction)
    requires Usable(d)
    ensures DecodeRecord(d, []) == Failed([])
  {
  }

  lemma PayloadLength(d: Direction, r: Sent)
    requires Usable(d) && Ordinary(r)
    ensures |BodyOf(d, r.ct, r.iv, r.data)| <= MAX_BODY
  {
  }

  /** The application reads the record contents in order with nothing lost or repeated: what
      any run of calls returned, what is buffered and what is unread add up to what was there. */
  lemma {:induction false} InOrder(b: Inbox, calls: seq<(bool, nat)>, rs: seq<Sent>) returns (left: seq<Sent>)
    requires Usable(b.dir) && (forall i :: 0 <= i < |rs| ==> Ordinary(rs[i]))
    requires b.incoming == WriteAll(b.dir, rs)
    ensures forall i :: 0 <= i < |left| ==> Ordinary(left[i])
    ensures var (got, last) := ReceiveAll(b, calls);
      Usable(last.dir) && last.incoming == WriteAll(last.dir, left) &&
      got + last.pending + AppData(left) == b.pending + AppData(rs)
    decreases |calls|
  {
    hide Receive, WriteAll, AppData;
    if calls == [] {
      left := rs;
    } else {
      var mid := ReceiveOne(b, calls[0].0, calls[0].1, rs);
      var (reply, b') := Receive(b, calls[0].0, calls[0].1);
      if reply.Error? {
        left := mid;
      } else {
        left := InOrder(b', calls[1..], mid);
        var (more, last) := ReceiveAll(b', calls[1..]);
        assert reply.data + more + last.pending + AppData(left) == reply.data + (more + last.pending + AppData(left));
        assert reply.data + b'.pending + AppData(mid) == reply.data + (b'.pending + AppData(mid));
      }
    }
  }

  lemma Slices(body: seq<bv8>, plain: seq<bv8>, n: nat)
    requires |body| >= 16 && body[16..] == plain && n + 20 <= |plain|
    ensures body[16..16 + n] == plain[..n]
    ensures body[16 + n..16 + n + 20] == plain[n..n + 20]
  {
    assert body == body[..16] + plain;
  }

  class Conn {
    const encCtx: Context
    const decCtx: Context
    var macEncKey: seq<bv8>
    var macDecKey: seq<bv8>
    var seqSend: nat
    var seqRecv: nat
    var cipherActive: bool
    /** Received application data not yet returned: appBuf[appPos..appLen]. */
    var appBuf: array?<bv8>
    var appLen: int
    var appPos: int
    ghost var encKey: seq<bv8>
    ghost var decKey: seq<bv8>

    ghost predicate Shape()
    {
      encCtx.Shape() && decCtx.Shape() &&
      {encCtx.keysched, encCtx.invkeysched, encCtx.iv} !! {decCtx.keysched, decCtx.invkeysched, decCtx.iv}
    }

    ghost predicate Valid()
      reads this, encCtx, encCtx.keysched, encCtx.invkeysched, decCtx, decCtx.keysched, decCtx.invkeysched
    {
      Shape() && KeyLength(|encKey|) && KeyLength(|decKey|) &&
      seqSend < 0x1_0000_0000 && seqRecv < 0x1_0000_0000 &&
      (cipherActive ==> encCtx.Keyed(encKey) && decCtx.Keyed(decKey)) &&
      (appBuf != null ==> 0 <= appPos < appLen <= appBuf.Length)
    }

    ghost predicate Separate(t: Tables)
      reads this, t, t.Arrays()
    {
      t.Valid() && t.ready &&
      t.Arrays() !! {encCtx.keysched, encCtx.invkeysched, encCtx.iv, decCtx.keysched, decCtx.invkeysched, decCtx.iv}
    }

    ghost function Sending(): Direction
      reads this
    {
      Direction(cipherActive, encKey, macEncKey, seqSend)
    }

    ghost function Receiving(): Direction
      reads this
    {
      Direction(cipherActive, decKey, macDecKey, seqRecv)
    }

    /** The buffered application bytes. */
    ghost function Pending(): seq<bv8>
      reads this, appBuf
      requires appBuf != null ==> 0 <= appPos < appLen <= appBuf.Length
    {
      if appBuf == null then [] else appBuf[appPos..appLen]
    }

    constructor ()
      ensures Shape() && fresh(encCtx) && fresh(decCtx)
      ensures fresh({encCtx.keysched, encCtx.invkeysched, encCtx.iv, decCtx.keysched, decCtx.invkeysched, decCtx.iv})
      ensures !cipherActive && seqSend == seqRecv == 0 && appBuf == null
    {
      encCtx := new Context();
      decCtx := new Context();
      macEncKey, macDecKey := [], [];
      seqSend, seqRecv, cipherActive := 0, 0, false;
      appBuf, appLen, appPos := null, 0, 0;
    }

    /** The MAC of a record: seq_num, type, version, length and data, in one buffer. */
    method RecordMac(mackey: seq<bv8>, seqno: nat, ct: bv8, data: seq<bv8>) returns (mac: array<bv8>)
      requires |data| <= MAX_DATA
      ensures fresh(mac) && mac.Length == 20 && mac[..] == HmacSha1(mackey, MacInput(seqno, ct, data))
    {
      hide HmacSha1, Byte;
      mac := new bv8[20];
      var input := new bv8[13 + |data|];
      var head := SeqBytes(seqno) + [ct, 0x03, 0x03] + Put16(|data|);
      forall i | 0 <= i < input.Length {
        input[i] := if i < 13 then head[i] else data[i - 13];
      }
      assert input[..] == MacInput(seqno, ct, data);
      MacSha1(mackey, input, mac);
      assert mac[..] == mac[..20];
    }

    /** Encrypts a payload whose first 16 bytes are the IV. */
    method Protect(t: Tables, payload: array<bv8>)
      requires Valid() && cipherActive && Separate(t)
      requires payload.Length >= 16
      modifies payload, encCtx.iv
      ensures Valid() && Separate(t)
      ensures payload[..] == old(payload[..16] + CbcEnc(encKey, BlockWords(payload[..16]), payload[16..]))
    {
      hide CbcEnc, BlockWords, Context.Keyed, Tables.Valid;
      KeyedShape(encCtx, encKey);
      ghost var iv, body := payload[..16], payload[16..];
      SetIv(encCtx, payload, 0);
      assert payload[0..16] == iv && payload[16..16 + (payload.Length - 16)] == body;
      CbcEncrypt(encCtx, t, payload, 16, payload.Length - 16, encKey);
      assert payload[..] == payload[..16] + payload[16..16 + (payload.Length - 16)];
    }

    /** The record before encryption: IV, data, MAC and padding, in one buffer. */
    method BuildPayload(mackey: seq<bv8>, seqno: nat, ct: bv8, data: seq<bv8>, iv: seq<bv8>) returns (payload: array<bv8>)
      requires |iv| == 16 && |data| <= MAX_DATA
      ensures fresh(payload) && payload.Length == 16 + |data| + 20 + PadLen(|data|) + 1
      ensures payload[..16] == iv && payload[16..] == Protected(mackey, seqno, ct, data)
    {
      hide HmacSha1, MacInput, Byte;
      var mac := RecordMac(mackey, seqno, ct, data);
      var padlen := 16 - (|data| + 20 + 1) % 16;
      if padlen == 16 {
        padlen := 0;
      }
      payload := new bv8[16 + |data| + 20 + padlen + 1];
      var plain := data + mac[..] + Padding(padlen);
      assert plain == Protected(mackey, seqno, ct, data);
      forall i | 0 <= i < payload.Length {
        payload[i] := if i < 16 then iv[i] else plain[i - 16];
      }
      assert payload[..16] == iv && payload[16..] == plain;
    }

    /** The encrypted payload of a record; steps the counter. */
    method SealRecord(t: Tables, ct: bv8, data: seq<bv8>, iv: seq<bv8>) returns (payload: array<bv8>)
      requires Valid() && Separate(t) && cipherActive
      requires |iv| == 16 && |data| <= MAX_DATA
      modifies `seqSend, encCtx.iv
      ensures Valid() && Separate(t) && fresh(payload)
      ensures payload[..] == old(Payload(encKey, macEncKey, seqSend, ct, iv, data))
      ensures Sending() == Next(old(Sending())) && Receiving() == old(Receiving())
    {
      hide CbcEnc, BlockWords, HmacSha1, MacInput, Context.Keyed, Tables.Valid, Protected, PadLen;
      KeyedShape(encCtx, encKey);
      payload := BuildPayload(macEncKey, seqSend, ct, data, iv);
      Protect(t, payload);
      seqSend := (seqSend + 1) % 0x1_0000_0000;
    }

    /** Header and body of a record. */
    method SendRecord(wire: Wire, header: seq<bv8>, body: seq<bv8>) returns (rc: int)
      modifies wire`sent
      ensures rc == 0 || rc == -1
      ensures old(wire.sent) <= wire.sent <= old(wire.sent) + (header + body)
      ensures rc == 0 <==> wire.sent == old(wire.sent) + (header + body)
    {
      ghost var s := wire.sent;
      var ok := wire.SendAll(header);
      assert s + header + body == s + (header + body);
      if !ok {
        assert |wire.sent| < |s + header|;
        return -1;
      }
      ok := wire.SendAll(body);
      return if ok then 0 else -1;
    }

    /** tls_write_record; iv is what the random generator gave. On failure a proper part of the
        record has gone out; the counter is stepped in any case. */
    method WriteRecord(t: Tables, wire: Wire, ct: bv8, data: seq<bv8>, iv: seq<bv8>) returns (rc: int)
      requires Valid() && Separate(t)
      requires |iv| == 16 && |data| <= MAX_DATA
      modifies `seqSend, encCtx.iv, wire`sent
      ensures Valid() && Separate(t)
      ensures rc == 0 || rc == -1
      ensures old(wire.sent) <= wire.sent <= old(wire.sent) + old(EncodeRecord(Sending(), ct, iv, data))
      ensures rc == 0 <==> wire.sent == old(wire.sent) + old(EncodeRecord(Sending(), ct, iv, data))
      ensures Sending() == Step(old(Sending())) && Receiving() == old(Receiving())
    {
      hide Context.Keyed, Tables.Valid, Put16, Header, Payload;
      if cipherActive {
        var payload := SealRecord(t, ct, data, iv);
        rc := SendRecord(wire, Header(ct, payload.Length), payload[..]);
      } else {
        rc := SendRecord(wire, Header(ct, |data|), data);
      }
    }

    /** Decrypts a body of at least 32 bytes behind its IV. */
    method Unprotect(t: Tables, body: array<bv8>)
      requires Valid() && cipherActive && Separate(t)
      requires body.Length >= 32
      modifies body, decCtx.iv
      ensures Valid() && Separate(t)
      ensures body[16..] == old(CbcDec(decKey, BlockWords(body[..16]), body[16..]))
    {
      hide CbcDec, BlockWords, Context.Keyed, Tables.Valid;
      KeyedShape(decCtx, decKey);
      ghost var iv, rest := body[..16], body[16..];
      SetIv(decCtx, body, 0);
      assert body[0..16] == iv && body[16..16 + (body.Length - 16)] == rest;
      CbcDecrypt(decCtx, t, body, 16, body.Length - 16, decKey);
      assert body[16..] == body[16..16 + (body.Length - 16)];
    }

    /** Checks padding and MAC of a decrypted body; the content length or -1. */
    method CheckContent(mackey: seq<bv8>, seqno: nat, ct: bv8, body: array<bv8>) returns (n: int)
      requires 32 <= body.Length <= MAX_BODY
      ensures n == ContentLength(mackey, seqno, ct, body[16..])
    {
      hide HmacSha1, MacInput;
      var padlen := body[body.Length - 1] as int;
      n := body.Length - 16 - 20 - padlen - 1;
      if n < 0 {
        return -1;
      }
      Slices(body[..], body[16..], n);
      var mac := RecordMac(mackey, seqno, ct, body[16..16 + n]);
      if body[16 + n..16 + n + 20] != mac[..] {
        return -1;
      }
    }

    /** Opens a received body in place: its content length, the content moved to the front,
        or -1. */
    method OpenRecord(t: Tables, ct: bv8, body: array<bv8>) returns (n: int)
      requires Valid() && Separate(t)
      requires Opens(Receiving(), ct) && body.Length <= MAX_BODY
      modifies body, decCtx.iv, `seqRecv
      ensures Valid() && Separate(t) && Sending() == old(Sending())
      ensures n < 0 ==> forall rest :: old(DecodeBody(Receiving(), ct, body[..], rest)) == Failed(rest)
      ensures n < 0 ==> Receiving() == old(Receiving())
      ensures n >= 0 ==> n <= body.Length && forall rest ::
        old(DecodeBody(Receiving(), ct, body[..], rest)) == Received(ct, body[..n], Receiving(), rest)
    {
      hide CbcDec, BlockWords, ContentLength, Context.Keyed, Tables.Valid;
      if body.Length < 32 {
        return -1;
      }
      KeyedShape(decCtx, decKey);
      assert body[..][..16] == body[..16] && body[..][16..] == body[16..];
      Unprotect(t, body);
      n := CheckContent(macDecKey, seqRecv, ct, body);
      if n < 0 {
        return;
      }
      seqRecv := (seqRecv + 1) % 0x1_0000_0000;
      ghost var plain := body[16..];
      forall i | 0 <= i < n {
        body[i] := body[16 + i];
      }
      assert body[..n] == plain[..n];
    }

    /** tls_read_record: the content type and content of the next record, or failure. */
    method ReadRecord(t: Tables, wire: Wire) returns (ok: bool, ct: bv8, out: array<bv8>, outlen: int)
      requires Valid() && Separate(t)
      modifies `seqRecv, decCtx.iv, wire
      ensures Valid() && Separate(t) && fresh(out)
      ensures wire.sent == old(wire.sent) && Sending() == old(Sending())
      ensures 0 <= outlen <= out.Length
      ensures old(DecodeRecord(Receiving(), wire.incoming)) ==
        if ok then Received(ct, out[..outlen], Receiving(), wire.incoming) else Failed(wire.incoming)
      ensures !ok ==> Receiving() == old(Receiving())
    {
      hide Context.Keyed, Tables.Valid, DecodeBody, NextFrame;
      KeyedShapeIfActive();
      ok, ct, out := wire.ReadFrame();
      outlen := 0;
      if ok {
        if cipherActive && (ct == HANDSHAKE || ct == APPLICATION) {
          outlen := OpenRecord(t, ct, out);
          if outlen < 0 {
            ok, outlen := false, 0;
          }
        } else {
          outlen := out.Length;
          PlainBody(Receiving(), ct, out[..], wire.incoming);
          assert out[..outlen] == out[..];
        }
      }
    }

    /** vtls_recv: copies up to len bytes to the front of buf; ready says whether the socket
        has data. The count, or -1. */
    method Recv(t: Tables, wire: Wire, buf: array<bv8>, len: int, ready: bool) returns (r: int)
      requires Valid() && Separate(t)
      requires 0 <= len <= buf.Length
      requires buf != appBuf
      modifies `seqRecv, `appBuf, `appLen, `appPos, decCtx.iv, wire, buf
      ensures Valid()
      ensures wire.sent == old(wire.sent) && Sending() == old(Sending())
      ensures var (reply, b) := old(Receive(Inbox(Pending(), Receiving(), wire.incoming), ready, len));
        b == Inbox(Pending(), Receiving(), wire.incoming) &&
        (if reply.Error? then r == -1 else r == |reply.data| && buf[..r] == reply.data)
      ensures r <= buf.Length && buf[if r < 0 then 0 else r..] == old(buf[..])[if r < 0 then 0 else r..]
    {
      hide DecodeRecord, Context.Keyed, Tables.Valid, Separate;
      if appBuf != null && appPos < appLen {
        r := RecvBuffered(buf, len);
        return;
      }
      if !ready {
        return 0;
      }
      var ok, ct, rec, recLen := ReadRecord(t, wire);
      if !ok {
        return -1;
      }
      if ct == APPLICATION {
        r := TakeFront(rec, recLen, buf, len);
        return;
      } else if ct == ALERT {
        return -1;
      }
      return 0;
    }

    /** Copies what fits of a new application record and keeps the rest. */
    method TakeFront(rec: array<bv8>, recLen: int, buf: array<bv8>, len: int) returns (r: int)
      requires Valid() && Pending() == [] && 0 <= recLen <= rec.Length && 0 <= len <= buf.Length && buf != rec
      modifies `appBuf, `appLen, `appPos, buf
      ensures Valid() && Sending() == old(Sending()) && Receiving() == old(Receiving())
      ensures 0 <= r == Min(len, recLen)
      ensures buf[..r] == old(rec[..recLen])[..r] && Pending() == old(rec[..recLen])[r..]
      ensures buf[r..] == old(buf[..])[r..]
    {
      hide Context.Keyed;
      r := if len < recLen then len else recLen;
      forall i | 0 <= i < r {
        buf[i] := rec[i];
      }
      if r < recLen {
        appBuf, appLen, appPos := rec, recLen, r;
      }
    }

    /** The part of vtls_recv that returns buffered data. */
    method RecvBuffered(buf: array<bv8>, len: int) returns (r: int)
      requires Valid() && appBuf != null && 0 <= len <= buf.Length && buf != appBuf
      modifies `appBuf, `appLen, `appPos, buf
      ensures Valid() && Sending() == old(Sending()) && Receiving() == old(Receiving())
      ensures 0 <= r == Min(len, |old(Pending())|)
      ensures buf[..r] == old(Pending())[..r] && Pending() == old(Pending())[r..]
      ensures buf[r..] == old(buf[..])[r..]
    {
      hide Context.Keyed;
      var avail := appLen - appPos;
      r := if len < avail then len else avail;
      forall i | 0 <= i < r {
        buf[i] := appBuf[appPos + i];
      }
      appPos := appPos + r;
      if appPos >= appLen {
        appBuf := null;
        appLen, appPos := 0, 0;
      }
    }

    ghost method KeyedShapeIfActive()
      requires Valid()
      ensures encCtx.Shape() && decCtx.Shape()
    {
    }
  }
}
