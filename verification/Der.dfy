/**
 The DER walk that finds the RSA key in a certificate. Reading past the certificate buffer is
 an outcome of its own (Overrun), so a walk that ends in Ok has stayed inside the buffer.
 */
module Der {
  import opened Powers

  datatype Res<+T> = Ok(value: T) | Reject | Overrun {
    predicate IsFailure()
    {
      !Ok?
    }

    function PropagateFailure<U>(): Res<U>
      requires IsFailure()
    {
      if Reject? then Res.Reject else Res.Overrun
    }

    function Extract(): T
      requires Ok?
    {
      value
    }
  }

  // ---- Headers ----

  /** A header that was read: its tag, where the content starts and how long it is. */
  datatype Header = Header(tag: byte, start: nat, len: nat)

  /** asn1_tag_len at offset p with the limit end, failing as its callers do on a negative
      length. The length is computed in a 16-bit int. */
  function ReadHeader(mem: seq<byte>, p: nat, end: int): (h: Res<Header>)
    ensures h.Ok? ==> p + 2 <= h.value.start <= |mem| && h.value.len < 32768
  {
    var avail := Signed(end - p);
    if avail < 2 then Reject
    else if p + 2 > |mem| then Overrun
    else if mem[p + 1] < 128 then Ok(Header(mem[p], p + 2, mem[p + 1]))
    else
      var nbytes := mem[p + 1] - 128;
      if nbytes > 3 || 2 + nbytes > avail then Reject
      else if p + 2 + nbytes > |mem| then Overrun
      else
        var len := Signed(BeValue(mem[p + 2..p + 2 + nbytes]));
        if len < 0 then Reject else Ok(Header(mem[p], p + 2 + nbytes, len))
  }

  lemma SignedShift(v: nat, b: byte)
    ensures Signed(Signed(v) * 256 + b) == Signed(v * 256 + b)
  {
    var k := (Signed(v) - v) / 65536;
    assert Signed(v) * 256 + b == v * 256 + b + (256 * k) * 65536;
    ModAddMultiple(v * 256 + b, 256 * k, 65536);
  }

  lemma NoBytes(mem: seq<byte>, p: nat)
    requires p <= |mem|
    ensures BeValue(mem[p..p + 0]) == 0
  {
  }

  lemma NextByte(mem: seq<byte>, p: nat, i: nat)
    requires p + i < |mem|
    ensures Signed(Signed(BeValue(mem[p..p + i])) * 256 + mem[p + i]) == Signed(BeValue(mem[p..p + i + 1]))
  {
    hide Signed;
    var next := mem[p..p + i + 1];
    assert next[..|next| - 1] == mem[p..p + i];
    SignedShift(BeValue(mem[p..p + i]), mem[p + i]);
  }

  /** asn1_tag_len: the shifting loop over the length bytes. */
  method TagLen(mem: seq<byte>, p: nat, end: int) returns (h: Res<Header>)
    ensures h == ReadHeader(mem, p, end)
  {
    hide Signed, BeValue;
    var avail := Signed(end - p);
    if avail < 2 {
      return Reject;
    }
    if p + 2 > |mem| {
      return Overrun;
    }
    var len: int := mem[p + 1];
    var hdrlen := 2;
    if mem[p + 1] >= 128 {
      var nbytes := mem[p + 1] - 128;
      if nbytes > 3 || 2 + nbytes > avail {
        return Reject;
      }
      if p + 2 + nbytes > |mem| {
        return Overrun;
      }
      len := 0;
      NoBytes(mem, p + 2);
      var i := 0;
      while i < nbytes
        invariant 0 <= i <= nbytes
        invariant len == Signed(BeValue(mem[p + 2..p + 2 + i]))
      {
        NextByte(mem, p + 2, i);
        len := Signed(len * 256 + mem[p + 2 + i]);
        i := i + 1;
      }
      hdrlen := 2 + nbytes;
    }
    if len < 0 {
      return Reject;
    }
    return Ok(Header(mem[p], p + hdrlen, len));
  }

  // ---- The walk ----

  function Field(mem: seq<byte>, p: nat, end: int, tag: byte): (h: Res<Header>)
    ensures h.Ok? ==> h == ReadHeader(mem, p, end) && h.value.tag == tag
  {
    var h :- ReadHeader(mem, p, end);
    if h.tag != tag then Reject else Ok(h)
  }

  /** Past the explicit version tag, if there is one; the number of fields passed. */
  function SkipVersion(mem: seq<byte>, p: nat, end: int): Res<(nat, nat)>
  {
    if p >= end then Ok((p, 0))
    else if p >= |mem| then Overrun
    else if 0xA0 <= mem[p] < 0xC0 then
      var h :- ReadHeader(mem, p, end);
      Ok((h.start + h.len, 1))
    else Ok((p, 0))
  }

  /** Past further fields until field number `wanted`, which must be there. */
  function SkipFields(mem: seq<byte>, p: nat, end: int, field: int, wanted: int): Res<nat>
    requires 0 <= field <= wanted
    decreases wanted - field
  {
    if field < wanted && p < end then
      var h :- ReadHeader(mem, p, end);
      SkipFields(mem, h.start + h.len, end, field + 1, wanted)
    else if field != wanted || p >= end then Reject
    else Ok(p)
  }

  /** Where field number `wanted` of the TBSCertificate starts, and where the fields end. */
  function FindField(mem: seq<byte>, wanted: int): Res<(nat, int)>
    requires wanted > 0
  {
    var cert :- Field(mem, 0, |mem|, 0x30);
    var tbs :- Field(mem, cert.start, |mem|, 0x30);
    var end := tbs.start + tbs.len;
    var first :- SkipVersion(mem, tbs.start, end);
    assert first.1 <= 1;
    var p :- SkipFields(mem, first.0, end, first.1, wanted);
    Ok((p, end))
  }

  /** Where an INTEGER's content lies without its leading zero, and what follows it. */
  datatype Span = Span(start: nat, len: nat, next: nat)

  function ReadInteger(mem: seq<byte>, p: nat, end: int): Res<Span>
  {
    var h :- Field(mem, p, end, 0x02);
    if h.len == 0 then Ok(Span(h.start, 0, h.start))
    else if h.start >= |mem| then Overrun
    else if mem[h.start] == 0 then Ok(Span(h.start + 1, h.len - 1, h.start + h.len))
    else Ok(Span(h.start, h.len, h.start + h.len))
  }

  datatype KeyAt = KeyAt(n: Span, e: Span)

  /** x509_extract_rsa. */
  function FindKey(mem: seq<byte>): Res<KeyAt>
  {
    var f :- FindField(mem, 6);
    var end := f.1;
    var spki :- Field(mem, f.0, end, 0x30);
    var alg :- Field(mem, spki.start, end, 0x30);
    var bits :- Field(mem, alg.start + alg.len, end, 0x03);
    if bits.start >= |mem| then Overrun
    else if mem[bits.start] != 0 then Reject
    else
      var key :- Field(mem, bits.start + 1, end, 0x30);
      var n :- ReadInteger(mem, key.start, end);
      var e :- ReadInteger(mem, n.next, end);
      Ok(KeyAt(n, e))
  }

  /** A field read with the expected tag, as the code tests it. */
  method ReadField(mem: seq<byte>, p: nat, end: int, tag: byte) returns (h: Res<Header>)
    ensures h == Field(mem, p, end, tag)
  {
    h := TagLen(mem, p, end);
    if h.Ok? && h.value.tag != tag {
      return Reject;
    }
  }

  /** The walk over the TBSCertificate fields. */
  method WalkFields(mem: seq<byte>, wanted: int) returns (r: Res<(nat, int)>)
    requires wanted > 0
    ensures r == FindField(mem, wanted)
  {
    hide ReadHeader;
    var cert :- ReadField(mem, 0, |mem|, 0x30);
    var tbs :- ReadField(mem, cert.start, |mem|, 0x30);
    var p: nat := tbs.start;
    var end := tbs.start + tbs.len;
    var field: int := 0;
    if p < end {
      if p >= |mem| {
        return Overrun;
      }
      if 0xA0 <= mem[p] < 0xC0 {
        var h :- TagLen(mem, p, end);
        p := h.start + h.len;
        field := 1;
      }
    }
    ghost var p0: nat, field0: int := p, field;
    assert SkipVersion(mem, tbs.start, end) == Ok((p0, field0));
    while field < wanted && p < end
      invariant 0 <= field <= wanted
      invariant SkipFields(mem, p, end, field, wanted) == SkipFields(mem, p0, end, field0, wanted)
      decreases wanted - field
    {
      var h :- TagLen(mem, p, end);
      p := h.start + h.len;
      field := field + 1;
    }
    if field != wanted || p >= end {
      return Reject;
    }
    return Ok((p, end));
  }

  /** x509_extract_rsa as a walk with a pointer. */
  method ExtractRsa(mem: seq<byte>) returns (r: Res<KeyAt>)
    ensures r == FindKey(mem)
  {
    hide ReadHeader, FindField;
    var f :- WalkFields(mem, 6);
    var p, end := f.0, f.1;
    var h :- ReadField(mem, p, end, 0x30);
    p := h.start;
    h :- ReadField(mem, p, end, 0x30);
    p := h.start + h.len;
    h :- ReadField(mem, p, end, 0x03);
    p := h.start;
    if p >= |mem| {
      return Overrun;
    }
    if mem[p] != 0 {
      return Reject;
    }
    h :- ReadField(mem, p + 1, end, 0x30);
    p := h.start;
    h :- ReadField(mem, p, end, 0x02);
    var nStart, nLen := h.start, h.len;
    if nLen > 0 {
      if nStart >= |mem| {
        return Overrun;
      }
      if mem[nStart] == 0 {
        nStart, nLen := nStart + 1, nLen - 1;
      }
    }
    p := h.start + h.len;
    h :- ReadField(mem, p, end, 0x02);
    var eStart, eLen := h.start, h.len;
    if eLen > 0 {
      if eStart >= |mem| {
        return Overrun;
      }
      if mem[eStart] == 0 {
        eStart, eLen := eStart + 1, eLen - 1;
      }
    }
    return Ok(KeyAt(Span(nStart, nLen, p), Span(eStart, eLen, h.start + h.len)));
  }

  // ---- The encoding (section 8.1.3 of X.690) ----

  function LenBytes(n: nat): (b: seq<byte>)
    ensures 1 <= |b| <= 5
  {
    if n < 128 then [n]
    else if n < 256 then [129, n]
    else if n < 65536 then [130, n / 256, n % 256]
    else if n < 0x100_0000 then [131, n / 65536, n / 256 % 256, n % 256]
    else [132, n / 0x100_0000 % 256, n / 65536 % 256, n / 256 % 256, n % 256]
  }

  function Tlv(tag: byte, body: seq<byte>): (s: seq<byte>)
    ensures |s| == 1 + |LenBytes(|body|)| + |body|
  {
    [tag] + LenBytes(|body|) + body
  }

  /** s lies in mem at offset p. */
  predicate At(mem: seq<byte>, p: int, s: seq<byte>)
  {
    0 <= p && p + |s| <= |mem| && mem[p..p + |s|] == s
  }

  lemma AtSplit(mem: seq<byte>, p: int, a: seq<byte>, b: seq<byte>)
    requires At(mem, p, a + b)
    ensures At(mem, p, a) && At(mem, p + |a|, b)
  {
    assert mem[p..p + |a|] == (a + b)[..|a|];
    assert mem[p + |a|..p + |a| + |b|] == (a + b)[|a|..];
  }

  lemma AtFirst(mem: seq<byte>, p: int, s: seq<byte>)
    requires At(mem, p, s) && s != []
    ensures 0 <= p < |mem| && mem[p] == s[0]
  {
    assert mem[p] == mem[p..p + |s|][0];
  }

  lemma BeTwo(a: byte, b: byte)
    ensures BeValue([a]) == a && BeValue([a, b]) == a * 256 + b
  {
    assert [a][..0] == [] && [a, b][..1] == [a];
    assert BeValue([]) == 0;
  }

  lemma BeThree(a: byte, b: byte, c: byte)
    ensures BeValue([a, b, c]) == (a * 256 + b) * 256 + c
  {
    BeTwo(a, b);
    assert [a, b, c][..2] == [a, b];
  }

  lemma Digits(n: nat)
    ensures n / 256 * 256 + n % 256 == n
    ensures n / 65536 * 256 + n / 256 % 256 == n / 256
  {
    assert n / 65536 == n / 256 / 256;
  }

  lemma LongForm(n: nat)
    requires 128 <= n < 0x100_0000
    ensures |LenBytes(n)| <= 4
    ensures LenBytes(n)[0] == 128 + |LenBytes(n)| - 1 && BeValue(LenBytes(n)[1..]) == n
  {
    Digits(n);
    if n < 256 {
      BeTwo(n, 0);
      assert LenBytes(n)[1..] == [n];
    } else if n < 65536 {
      BeTwo(n / 256, n % 256);
      assert LenBytes(n)[1..] == [n / 256, n % 256];
    } else {
      BeThree(n / 65536, n / 256 % 256, n % 256);
      assert LenBytes(n)[1..] == [n / 65536, n / 256 % 256, n % 256];
    }
  }

  /** The reader undoes the length encoding in short and long form exactly for lengths that
      fit a 16-bit int; a longer one comes back wrong or as a failure. */
  lemma HeaderExact(mem: seq<byte>, p: nat, end: int, tag: byte, n: nat)
    requires At(mem, p, [tag] + LenBytes(n))
    requires 1 + |LenBytes(n)| <= end - p < 32768
    ensures ReadHeader(mem, p, end) == Ok(Header(tag, p + 1 + |LenBytes(n)|, n)) <==> n < 32768
  {
    hide Signed, LenBytes;
    AtSplit(mem, p, [tag], LenBytes(n));
    AtFirst(mem, p, [tag]);
    var b := LenBytes(n);
    assert mem[p + 1] == mem[p + 1..p + 1 + |b|][0] == b[0];
    if n >= 0x100_0000 {
      HugeForm(n);
    } else if n >= 128 {
      LongForm(n);
      assert mem[p + 1] - 128 == |b| - 1;
      assert mem[p + 2..p + 1 + |b|] == mem[p + 1..p + 1 + |b|][1..] == b[1..];
    } else {
      ShortForm(n);
    }
  }

  lemma HugeForm(n: nat)
    requires n >= 0x100_0000
    ensures LenBytes(n)[0] == 132
  {
  }

  lemma ShortForm(n: nat)
    requires n < 128
    ensures LenBytes(n) == [n]
  {
  }

  // ---- Certificates ----

  datatype Option<T> = None | Some(value: T)

  datatype Element = Element(tag: byte, body: seq<byte>)

  /** A certificate (section 4.1 of RFC 5280) with an RSA key: the fields before the key are
      serialNumber, signature, issuer, validity and subject; extensions is the rest of the
      TBSCertificate and signature what follows it. */
  datatype Certificate = Certificate(
    version: Option<seq<byte>>, fields: seq<Element>, alg: seq<byte>, n: seq<byte>, e: seq<byte>,
    extensions: seq<byte>, signature: seq<byte>)

  function Fields(fs: seq<Element>): seq<byte>
    decreases |fs|
  {
    if fs == [] then [] else Tlv(fs[0].tag, fs[0].body) + Fields(fs[1..])
  }

  /** The content of the INTEGER whose big-endian bytes without leading zeros are b. */
  function DerInteger(b: seq<byte>): seq<byte>
  {
    if b == [] || b[0] >= 128 then [0] + b else b
  }

  predicate Minimal(b: seq<byte>)
  {
    b != [] ==> b[0] != 0
  }

  function PublicKey(n: seq<byte>, e: seq<byte>): seq<byte>
  {
    Tlv(0x30, Tlv(0x02, DerInteger(n)) + Tlv(0x02, DerInteger(e)))
  }

  function KeyInfo(c: Certificate): seq<byte>
  {
    Tlv(0x30, Tlv(0x30, c.alg) + Tlv(0x03, [0] + PublicKey(c.n, c.e)))
  }

  function VersionPart(c: Certificate): seq<byte>
  {
    if c.version.None? then [] else Tlv(0xA0, c.version.value)
  }

  function Tbs(c: Certificate): seq<byte>
  {
    VersionPart(c) + (Fields(c.fields) + (KeyInfo(c) + c.extensions))
  }

  function Encode(c: Certificate): seq<byte>
  {
    Tlv(0x30, Tlv(0x30, Tbs(c)) + c.signature)
  }

  /** Only versions 2 and 3, which are marked by the tag, have anything after the key. */
  predicate WellFormed(c: Certificate)
  {
    |c.fields| == 5 && c.fields[0].tag == 0x02 && Minimal(c.n) && Minimal(c.e) &&
    (c.version.None? ==> c.extensions == []) && |Encode(c)| < 32768
  }

  /** An encoded element is read as what it is. */
  lemma ElementAt(mem: seq<byte>, p: nat, end: int, tag: byte, body: seq<byte>) returns (start: nat)
    requires At(mem, p, Tlv(tag, body)) && p + |Tlv(tag, body)| <= end <= |mem| < 32768
    ensures ReadHeader(mem, p, end) == Ok(Header(tag, start, |body|))
    ensures start + |body| == p + |Tlv(tag, body)| && At(mem, start, body)
  {
    hide LenBytes, At;
    AtSplit(mem, p, [tag] + LenBytes(|body|), body);
    start := p + 1 + |LenBytes(|body|)|;
    hide ReadHeader;
    HeaderExact(mem, p, end, tag, |body|);
  }

  lemma IntegerAt(mem: seq<byte>, p: nat, end: int, b: seq<byte>) returns (start: nat)
    requires Minimal(b)
    requires At(mem, p, Tlv(0x02, DerInteger(b))) && p + |Tlv(0x02, DerInteger(b))| <= end <= |mem| < 32768
    ensures ReadInteger(mem, p, end) == Ok(Span(start, |b|, p + |Tlv(0x02, DerInteger(b))|))
    ensures At(mem, start, b)
  {
    hide Tlv, ReadHeader, At;
    start := ElementAt(mem, p, end, 0x02, DerInteger(b));
    AtFirst(mem, start, DerInteger(b));
    if b == [] || b[0] >= 128 {
      AtSplit(mem, start, [0], b);
      start := start + 1;
    }
  }

  /** The walk passes encoded fields one by one. */
  lemma {:induction false} FieldsAt(mem: seq<byte>, p: nat, end: int, fs: seq<Element>, tail: seq<byte>, field: int, wanted: int)
    requires At(mem, p, Fields(fs) + tail) && p + |Fields(fs)| + |tail| <= end <= |mem| < 32768
    requires 0 <= field && field + |fs| <= wanted
    ensures SkipFields(mem, p, end, field, wanted)
         == SkipFields(mem, p + |Fields(fs)|, end, field + |fs|, wanted)
    ensures At(mem, p + |Fields(fs)|, tail)
    decreases |fs|
  {
    hide Tlv, ReadHeader, At;
    AtSplit(mem, p, Fields(fs), tail);
    if fs != [] {
      var first := Tlv(fs[0].tag, fs[0].body);
      AtSplit(mem, p, first, Fields(fs[1..]));
      var start := ElementAt(mem, p, end, fs[0].tag, fs[0].body);
      assert Fields(fs) + tail == first + (Fields(fs[1..]) + tail);
      AtSplit(mem, p, first, Fields(fs[1..]) + tail);
      FieldsAt(mem, p + |first|, end, fs[1..], tail, field + 1, wanted);
    }
  }

  lemma TlvNonEmpty(tag: byte, body: seq<byte>)
    ensures |Tlv(tag, body)| >= 2 + |body| && Tlv(tag, body)[0] == tag
  {
  }

  /** Where the fields of the TBSCertificate are. */
  lemma TbsAt(c: Certificate, mem: seq<byte>) returns (p: nat, end: int)
    requires mem == Encode(c) && |mem| < 32768
    ensures end == p + |Tbs(c)| <= |mem| && At(mem, p, Tbs(c))
    ensures Field(mem, 0, |mem|, 0x30).Ok?
    ensures var outer := Field(mem, 0, |mem|, 0x30).value;
      Field(mem, outer.start, |mem|, 0x30) == Ok(Header(0x30, p, |Tbs(c)|))
  {
    hide Tlv, ReadHeader, Tbs;
    assert At(mem, 0, Encode(c)) by {
      assert mem[0..|mem|] == mem;
    }
    var outer := ElementAt(mem, 0, |mem|, 0x30, Tlv(0x30, Tbs(c)) + c.signature);
    AtSplit(mem, outer, Tlv(0x30, Tbs(c)), c.signature);
    p := ElementAt(mem, outer, |mem|, 0x30, Tbs(c));
    end := p + |Tbs(c)|;
  }

  predicate KeyLies(mem: seq<byte>, r: Res<KeyAt>, n: seq<byte>, e: seq<byte>)
  {
    r.Ok? && r.value.n.len == |n| && At(mem, r.value.n.start, n) && r.value.e.len == |e| && At(mem, r.value.e.start, e)
  }

  /** From the position of the key information on, the walk finds the key. */
  lemma KeyInfoAt(mem: seq<byte>, p: nat, end: int, c: Certificate)
    requires FindField(mem, 6) == Ok((p, end))
    requires At(mem, p, KeyInfo(c)) && p + |KeyInfo(c)| <= end <= |mem| < 32768
    requires Minimal(c.n) && Minimal(c.e)
    ensures KeyLies(mem, FindKey(mem), c.n, c.e)
  {
    hide Tlv, ReadHeader, ReadInteger, FindField, At;
    var bits := [0] + PublicKey(c.n, c.e);
    var spki := ElementAt(mem, p, end, 0x30, Tlv(0x30, c.alg) + Tlv(0x03, bits));
    AtSplit(mem, spki, Tlv(0x30, c.alg), Tlv(0x03, bits));
    var alg := ElementAt(mem, spki, end, 0x30, c.alg);
    var b := ElementAt(mem, alg + |c.alg|, end, 0x03, bits);
    AtSplit(mem, b, [0], PublicKey(c.n, c.e));
    AtFirst(mem, b, [0]);
    var n, e := Tlv(0x02, DerInteger(c.n)), Tlv(0x02, DerInteger(c.e));
    var key := ElementAt(mem, b + 1, end, 0x30, n + e);
    AtSplit(mem, key, n, e);
    var nStart := IntegerAt(mem, key, end, c.n);
    var eStart := IntegerAt(mem, key + |n|, end, c.e);
  }

  /** With the version tag the walk reaches the key information. */
  lemma VersionedField(c: Certificate, mem: seq<byte>) returns (p: nat, end: int)
    requires WellFormed(c) && c.version.Some? && mem == Encode(c)
    ensures FindField(mem, 6) == Ok((p, end))
    ensures At(mem, p, KeyInfo(c)) && p + |KeyInfo(c)| <= end <= |mem|
  {
    hide Tlv, ReadHeader, KeyInfo, At;
    var start;
    start, end := TbsAt(c, mem);
    var v := VersionPart(c);
    var rest := KeyInfo(c) + c.extensions;
    AtSplit(mem, start, v, Fields(c.fields) + rest);
    TlvNonEmpty(0xA0, c.version.value);
    AtFirst(mem, start, v);
    var vs := ElementAt(mem, start, end, 0xA0, c.version.value);
    FieldsAt(mem, start + |v|, end, c.fields, rest, 1, 6);
    p := start + |v| + |Fields(c.fields)|;
    AtSplit(mem, p, KeyInfo(c), c.extensions);
    KeyInfoNonEmpty(c);
  }

  lemma KeyInfoNonEmpty(c: Certificate)
    ensures |KeyInfo(c)| > 0
  {
    hide Tlv;
    TlvNonEmpty(0x30, Tlv(0x30, c.alg) + Tlv(0x03, [0] + PublicKey(c.n, c.e)));
  }

  /** Without it the walk counts one field too few and takes the key information for the
      subject: it runs into the end of the fields. */
  lemma UnversionedField(c: Certificate, mem: seq<byte>)
    requires WellFormed(c) && c.version.None? && mem == Encode(c)
    ensures FindField(mem, 6) == Reject
  {
    hide Tlv, ReadHeader, At;
    var start, end := TbsAt(c, mem);
    var key := Element(0x30, Tlv(0x30, c.alg) + Tlv(0x03, [0] + PublicKey(c.n, c.e)));
    var six := c.fields + [key];
    FieldsAppend(c.fields, key);
    assert Tbs(c) == Fields(six) + [];
    FieldsAt(mem, start, end, six, [], 0, 6);
    TlvNonEmpty(0x02, c.fields[0].body);
    assert Tbs(c)[0] == 0x02;
    AtFirst(mem, start, Tbs(c));
  }

  lemma {:induction false} FieldsAppend(fs: seq<Element>, x: Element)
    ensures Fields(fs + [x]) == Fields(fs) + Tlv(x.tag, x.body)
    decreases |fs|
  {
    hide Tlv;
    if fs == [] {
      assert Fields([x][1..]) == [];
    } else {
      assert (fs + [x])[1..] == fs[1..] + [x];
      FieldsAppend(fs[1..], x);
    }
  }

  /** A well-formed certificate gives back the minimal modulus and exponent that were encoded
      exactly when it has the explicit version tag; otherwise it is rejected. */
  lemma KeyExact(c: Certificate)
    requires WellFormed(c)
    ensures KeyLies(Encode(c), FindKey(Encode(c)), c.n, c.e) <==> c.version.Some?
    ensures c.version.None? ==> FindKey(Encode(c)) == Reject
  {
    hide FindField, KeyInfo, Encode, WellFormed, KeyLies;
    if c.version.Some? {
      var p, end := VersionedField(c, Encode(c));
      ShortEnough(c);
      KeyInfoAt(Encode(c), p, end, c);
    } else {
      UnversionedField(c, Encode(c));
      NoKey(Encode(c), c.n, c.e);
    }
  }

  lemma ShortEnough(c: Certificate)
    requires WellFormed(c)
    ensures |Encode(c)| < 32768 && Minimal(c.n) && Minimal(c.e)
  {
  }

  lemma NoKey(mem: seq<byte>, n: seq<byte>, e: seq<byte>)
    requires FindField(mem, 6) == Reject
    ensures FindKey(mem) == Reject && !KeyLies(mem, FindKey(mem), n, e)
  {
  }

  /** A version 1 certificate with empty names: well-formed, and rejected. */
  function Versionless(n: seq<byte>, e: seq<byte>): Certificate
  {
    var none := Element(0x30, []);
    Certificate(None, [Element(0x02, [1]), none, none, none, none], [], n, e, [], [])
  }

  lemma VersionlessRejected(n: seq<byte>, e: seq<byte>)
    requires Minimal(n) && Minimal(e) && |n| <= 1024 && |e| <= 1024
    ensures WellFormed(Versionless(n, e)) && FindKey(Encode(Versionless(n, e))) == Reject
  {
    hide Tlv, LenBytes, FindKey;
    var c := Versionless(n, e);
    FieldsSize(c.fields);
    KeyExact(c);
  }

  lemma {:induction false} FieldsSize(fs: seq<Element>)
    requires forall i :: 0 <= i < |fs| ==> |fs[i].body| <= 1
    ensures |Fields(fs)| <= 7 * |fs|
    decreases |fs|
  {
    hide LenBytes, Tlv;
    if fs != [] {
      FieldsSize(fs[1..]);
    }
  }
}
