/** The DER walk that finds the subject's common name. */
module CommonName {
  import opened Powers
  import opened Der

  /** 2.5.4.3 */
  const CN_OID: seq<byte> := [0x55, 0x04, 0x03]

  /** The bytes of an arc, seven bits each, all but the last marked. */
  function ArcBytes(n: nat, last: bool): seq<byte>
  {
    (if n < 128 then [] else ArcBytes(n / 128, false)) + [n % 128 + if last then 0 else 128]
  }

  function ArcsBytes(arcs: seq<nat>): seq<byte>
    decreases |arcs|
  {
    if arcs == [] then [] else ArcBytes(arcs[0], true) + ArcsBytes(arcs[1..])
  }

  /** The content of an OBJECT IDENTIFIER (section 8.19 of X.690). */
  function OidBytes(arcs: seq<nat>): seq<byte>
    requires |arcs| >= 2
  {
    ArcsBytes([40 * arcs[0] + arcs[1]] + arcs[2..])
  }

  /** It is id-at-commonName, 2.5.4.3. */
  lemma CnOid()
    ensures OidBytes([2, 5, 4, 3]) == CN_OID
  {
    var arcs: seq<nat> := [85, 4, 3];
    assert [40 * 2 + 5] + [2, 5, 4, 3][2..] == arcs;
    assert arcs[1..] == [4, 3] && arcs[1..][1..] == [3] && arcs[1..][1..][1..] == [];
    assert ArcBytes(85, true) == [85] && ArcBytes(4, true) == [4] && ArcBytes(3, true) == [3];
    assert ArcsBytes(arcs[1..][1..]) == [3];
    assert ArcsBytes(arcs[1..]) == [4] + [3];
  }

  /** One relative distinguished name: its end, and where its value lies if it is a CN. */
  datatype Step = Step(next: nat, cn: Option<Header>)

  /** One turn of the loop over the subject. A set whose content is not as expected is passed
      over; only a set that cannot be read ends the walk. */
  function ReadRdn(mem: seq<byte>, p: nat, end: int): (s: Res<Step>)
    ensures s.Ok? ==> s.value.next > p
  {
    var set_ :- Field(mem, p, end, 0x31);
    var next := set_.start + set_.len;
    var pair := Field(mem, set_.start, next, 0x30);
    if pair.Overrun? then Overrun
    else if pair.Reject? then Ok(Step(next, None))
    else
      var oid := Field(mem, pair.value.start, next, 0x06);
      if oid.Overrun? then Overrun
      else if oid.Reject? || oid.value.len != 3 then Ok(Step(next, None))
      else if oid.value.start + 3 > |mem| then Overrun
      else if mem[oid.value.start..oid.value.start + 3] != CN_OID then Ok(Step(next, None))
      else
        var value :- ReadHeader(mem, oid.value.start + 3, next);
        Ok(Step(next, Some(value)))
  }

  function ReadRdns(mem: seq<byte>, p: nat, end: int): Res<Header>
    decreases end - p
  {
    if p >= end then Reject
    else
      var s :- ReadRdn(mem, p, end);
      if s.cn.Some? then Ok(s.cn.value) else ReadRdns(mem, s.next, end)
  }

  function NameAt(mem: seq<byte>, value: Header, room: int): (r: Res<seq<byte>>)
    requires room > 0
    ensures r.Ok? ==> |r.value| < room
  {
    var len := if value.len >= room then room - 1 else value.len;
    if value.start + len > |mem| then Overrun else Ok(mem[value.start..value.start + len])
  }

  /** The bytes x509_extract_cn copies, at most room - 1 of them. */
  function FindCn(mem: seq<byte>, room: int): Res<seq<byte>>
    requires room > 0
  {
    var f :- FindField(mem, 5);
    var subject :- Field(mem, f.0, f.1, 0x30);
    var value :- ReadRdns(mem, subject.start, subject.start + subject.len);
    NameAt(mem, value, room)
  }

  /** The buffer afterwards: the name and a terminating zero, or nothing new. */
  predicate Copied(before: seq<byte>, after: seq<byte>, name: Res<seq<byte>>, r: Res<nat>)
  {
    match name
    case Ok(n) => r == Ok(|n|) && |n| < |after| == |before| && after[..|n|] == n && after[|n|] == 0
      && after[|n| + 1..] == before[|n| + 1..]
    case Reject => r.Reject? && after == before
    case Overrun => r.Overrun? && after == before
  }

  method CopyName(mem: seq<byte>, value: Header, buf: array<byte>, room: int) returns (r: Res<nat>)
    requires 0 < room <= buf.Length
    modifies buf
    ensures Copied(old(buf[..]), buf[..], NameAt(mem, value, room), r)
  {
    var len := if value.len >= room then room - 1 else value.len;
    if value.start + len > |mem| {
      return Overrun;
    }
    forall i | 0 <= i < len {
      buf[i] := mem[value.start + i];
    }
    buf[len] := 0;
    assert buf[..len] == mem[value.start..value.start + len];
    return Ok(len);
  }

  /** x509_extract_cn; buf gets the name and a terminating zero. */
  method ExtractCn(mem: seq<byte>, buf: array<byte>, room: int) returns (r: Res<nat>)
    requires 0 < room <= buf.Length
    modifies buf
    ensures Copied(old(buf[..]), buf[..], FindCn(mem, room), r)
  {
    hide ReadHeader, FindField, NameAt;
    var f :- WalkFields(mem, 5);
    var h :- ReadField(mem, f.0, f.1, 0x30);
    var p: nat := h.start;
    var end := p + h.len;
    ghost var p0 := p;
    while p < end
      invariant ReadRdns(mem, p, end) == ReadRdns(mem, p0, end)
      invariant buf[..] == old(buf[..])
      decreases end - p
    {
      var rdn :- ReadField(mem, p, end, 0x31);
      var next := rdn.start + rdn.len;
      var pair := ReadField(mem, rdn.start, next, 0x30);
      if pair.Overrun? {
        return Overrun;
      }
      if pair.Ok? {
        var oid := ReadField(mem, pair.value.start, next, 0x06);
        if oid.Overrun? {
          return Overrun;
        }
        if oid.Ok? && oid.value.len == 3 {
          var at := oid.value.start;
          if at + 3 > |mem| {
            return Overrun;
          }
          if mem[at..at + 3] == CN_OID {
            var value :- TagLen(mem, at + 3, next);
            r := CopyName(mem, value, buf, room);
            return;
          }
        }
      }
      p := next;
    }
    return Reject;
  }

  // ---- Names that were encoded ----

  /** One attribute, followed by whatever else its set holds. */
  datatype Rdn = Rdn(oid: seq<byte>, valueTag: byte, value: seq<byte>, more: seq<byte>)

  function Pair(r: Rdn): seq<byte>
  {
    Tlv(0x30, Tlv(0x06, r.oid) + Tlv(r.valueTag, r.value))
  }

  function EncodeRdns(rs: seq<Rdn>): seq<byte>
    decreases |rs|
  {
    if rs == [] then [] else Tlv(0x31, Pair(rs[0]) + rs[0].more) + EncodeRdns(rs[1..])
  }

  /** The first common name of a subject. */
  function FirstCn(rs: seq<Rdn>): Option<seq<byte>>
    decreases |rs|
  {
    if rs == [] then None else if rs[0].oid == CN_OID then Some(rs[0].value) else FirstCn(rs[1..])
  }

  lemma RdnAt(mem: seq<byte>, p: nat, end: int, r: Rdn) returns (v: nat)
    requires At(mem, p, Tlv(0x31, Pair(r) + r.more)) && p + |Tlv(0x31, Pair(r) + r.more)| <= end <= |mem| < 32768
    ensures ReadRdn(mem, p, end) == Ok(Step(p + |Tlv(0x31, Pair(r) + r.more)|,
        if r.oid == CN_OID then Some(Header(r.valueTag, v, |r.value|)) else None))
    ensures r.oid == CN_OID ==> At(mem, v, r.value)
  {
    hide Tlv, ReadHeader;
    var start := ElementAt(mem, p, end, 0x31, Pair(r) + r.more);
    AtSplit(mem, start, Pair(r), r.more);
    var next := start + |Pair(r) + r.more|;
    var pair := ElementAt(mem, start, next, 0x30, Tlv(0x06, r.oid) + Tlv(r.valueTag, r.value));
    AtSplit(mem, pair, Tlv(0x06, r.oid), Tlv(r.valueTag, r.value));
    var oid := ElementAt(mem, pair, next, 0x06, r.oid);
    v := ElementAt(mem, oid + |r.oid|, next, r.valueTag, r.value);
  }

  predicate Found(mem: seq<byte>, r: Res<Header>, v: int, name: seq<byte>)
  {
    r.Ok? && r.value.start == v && r.value.len == |name| && At(mem, v, name)
  }

  lemma {:induction false} RdnsAt(mem: seq<byte>, p: nat, end: int, rs: seq<Rdn>) returns (v: nat)
    requires At(mem, p, EncodeRdns(rs)) && end == p + |EncodeRdns(rs)| && end <= |mem| < 32768
    ensures FirstCn(rs).None? ==> ReadRdns(mem, p, end) == Reject
    ensures FirstCn(rs).Some? ==> Found(mem, ReadRdns(mem, p, end), v, FirstCn(rs).value)
    decreases |rs|
  {
    hide Tlv, ReadHeader, ReadRdn;
    v := 0;
    if rs != [] {
      var first := Tlv(0x31, Pair(rs[0]) + rs[0].more);
      TlvNonEmpty(0x31, Pair(rs[0]) + rs[0].more);
      AtSplit(mem, p, first, EncodeRdns(rs[1..]));
      v := RdnAt(mem, p, end, rs[0]);
      if rs[0].oid != CN_OID {
        v := RdnsAt(mem, p + |first|, end, rs[1..]);
      }
    }
  }

  lemma SubjectSplit(c: Certificate, rest: seq<byte>)
    requires |c.fields| == 5
    ensures Fields(c.fields) + rest == Fields(c.fields[..4]) + (Tlv(c.fields[4].tag, c.fields[4].body) + rest)
  {
    hide Tlv, Fields;
    assert c.fields == c.fields[..4] + [c.fields[4]];
    FieldsAppend(c.fields[..4], c.fields[4]);
  }

  /** The walk reaches the subject, the fifth field after the version. */
  lemma SubjectField(c: Certificate, mem: seq<byte>) returns (p: nat, end: int)
    requires WellFormed(c) && c.version.Some? && mem == Encode(c)
    ensures FindField(mem, 5) == Ok((p, end))
    ensures var subject := Tlv(c.fields[4].tag, c.fields[4].body);
      At(mem, p, subject) && p + |subject| <= end <= |mem|
  {
    hide Tlv, ReadHeader, KeyInfo, At;
    var start;
    start, end := TbsAt(c, mem);
    var v, last := VersionPart(c), c.fields[4];
    var rest := KeyInfo(c) + c.extensions;
    AtSplit(mem, start, v, Fields(c.fields) + rest);
    TlvNonEmpty(0xA0, c.version.value);
    AtFirst(mem, start, v);
    var vs := ElementAt(mem, start, end, 0xA0, c.version.value);
    SubjectSplit(c, rest);
    var subject := Tlv(last.tag, last.body);
    hide Fields, WellFormed;
    FieldsAt(mem, start + |v|, end, c.fields[..4], subject + rest, 1, 5);
    p := start + |v| + |Fields(c.fields[..4])|;
    AtSplit(mem, p, subject, rest);
    TlvNonEmpty(last.tag, last.body);
  }

  /** Without a version tag the walk takes the key information for the subject. */
  lemma UnversionedSubject(c: Certificate, mem: seq<byte>) returns (p: nat, end: int)
    requires WellFormed(c) && c.version.None? && mem == Encode(c)
    ensures FindField(mem, 5) == Ok((p, end))
    ensures At(mem, p, KeyInfo(c)) && p + |KeyInfo(c)| <= end <= |mem|
  {
    hide Tlv, ReadHeader, KeyInfo, At;
    var start;
    start, end := TbsAt(c, mem);
    assert Tbs(c) == Fields(c.fields) + KeyInfo(c);
    FieldsAt(mem, start, end, c.fields, KeyInfo(c), 0, 5);
    p := start + |Fields(c.fields)|;
    KeyInfoNonEmpty(c);
    TlvNonEmpty(0x02, c.fields[0].body);
    assert Tbs(c)[0] == 0x02;
    AtFirst(mem, start, Tbs(c));
  }

  lemma UnversionedName(c: Certificate, mem: seq<byte>, room: int)
    requires WellFormed(c) && c.version.None? && mem == Encode(c) && room > 0
    ensures FindCn(mem, room) == Reject
  {
    hide Tlv, ReadHeader, FindField, Encode, At;
    var p, end := UnversionedSubject(c, mem);
    ShortEnough(c);
    var key := Tlv(0x30, c.alg) + Tlv(0x03, [0] + PublicKey(c.n, c.e));
    var s := ElementAt(mem, p, end, 0x30, key);
    AtSplit(mem, s, Tlv(0x30, c.alg), Tlv(0x03, [0] + PublicKey(c.n, c.e)));
    TlvNonEmpty(0x30, c.alg);
    var a := ElementAt(mem, s, s + |key|, 0x30, c.alg);
  }

  lemma FrontOf(mem: seq<byte>, v: nat, n: nat, k: nat)
    requires v + n <= |mem| && k <= n
    ensures mem[v..v + k] == mem[v..v + n][..k]
  {
  }

  /** For every well-formed certificate the walk returns the first common name of the subject,
      cut to the room there is, exactly when the version tag is present and there is one. */
  lemma CnExact(c: Certificate, rs: seq<Rdn>, room: int)
    requires WellFormed(c) && c.fields[4] == Element(0x30, EncodeRdns(rs)) && room > 0
    ensures var name := FirstCn(rs);
      FindCn(Encode(c), room) ==
        if c.version.Some? && name.Some? then Ok(if |name.value| < room then name.value else name.value[..room - 1])
        else Reject
  {
    hide Tlv, ReadHeader, ReadRdns, FindField, Encode, FirstCn, EncodeRdns, ReadInteger;
    var mem := Encode(c);
    ShortEnough(c);
    if c.version.None? {
      UnversionedName(c, mem, room);
    } else {
      var p, end := SubjectField(c, mem);
      var s := ElementAt(mem, p, end, 0x30, EncodeRdns(rs));
      var v := RdnsAt(mem, s, s + |EncodeRdns(rs)|, rs);
      if FirstCn(rs).Some? {
        var name := FirstCn(rs).value;
        var len := if |name| >= room then room - 1 else |name|;
        FrontOf(mem, v, |name|, len);
      }
    }
  }
}
