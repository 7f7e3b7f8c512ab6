/** PKCS #1 v1.5 encryption, block type 2, on top of BigNum. */
module Rsa {
  import opened Powers
  import opened BigNum

  /** The bytes that successive draws of `rand() & 0xFF` contribute: zero draws are retried. */
  function NonZeroBytes(draws: seq<nat>): (ps: seq<byte>)
    ensures forall k :: 0 <= k < |ps| ==> ps[k] != 0
  {
    if draws == [] then []
    else
      var b := draws[|draws| - 1] % 256;
      NonZeroBytes(draws[..|draws| - 1]) + if b == 0 then [] else [b]
  }

  lemma {:induction false} NonZeroPrefix(draws: seq<nat>, d: nat)
    requires d <= |draws|
    ensures NonZeroBytes(draws[..d]) <= NonZeroBytes(draws)
  {
    if d < |draws| {
      var rest := draws[..|draws| - 1];
      assert rest[..d] == draws[..d];
      NonZeroPrefix(rest, d);
    } else {
      assert draws[..d] == draws;
    }
  }

  /** EM = 00 || 02 || PS || 00 || M (section 7.2.1 of RFC 8017). */
  function EncodedMessage(ps: seq<byte>, msg: seq<byte>): seq<byte>
  {
    [0, 2] + ps + [0] + msg
  }

  /** The first zero byte from index i on, or the end. */
  function FindZero(s: seq<byte>, i: nat): (z: nat)
    requires i <= |s|
    ensures i <= z <= |s|
    decreases |s| - i
  {
    if i == |s| || s[i] == 0 then i else FindZero(s, i + 1)
  }

  datatype Unpadded = Message(m: seq<byte>) | DecryptionError

  /** What the other side does with EM (section 7.2.2 of RFC 8017): it wants 00, 02, at least eight
      non-zero bytes and a zero byte, and takes the rest. */
  function Unpad(em: seq<byte>): Unpadded
  {
    if |em| < 11 || em[0] != 0 || em[1] != 2 then DecryptionError
    else
      var z := FindZero(em, 2);
      if z < 10 || z == |em| then DecryptionError else Message(em[z + 1..])
  }

  lemma {:induction false} ZeroAfter(ps: seq<byte>, rest: seq<byte>, i: nat)
    requires i <= |ps| && forall k :: 0 <= k < |ps| ==> ps[k] != 0
    ensures FindZero([0, 2] + ps + [0] + rest, 2 + i) == 2 + |ps|
    decreases |ps| - i
  {
    var s := [0, 2] + ps + [0] + rest;
    if i < |ps| {
      assert s[2 + i] == ps[i];
      ZeroAfter(ps, rest, i + 1);
    } else {
      assert s[2 + i] == 0;
    }
  }

  /** The message comes back, whatever it is, from every padding string of non-zero bytes. */
  lemma UnpadsToMessage(ps: seq<byte>, msg: seq<byte>)
    requires |ps| >= 8 && forall k :: 0 <= k < |ps| ==> ps[k] != 0
    ensures Unpad(EncodedMessage(ps, msg)) == Message(msg)
  {
    ZeroAfter(ps, msg, 0);
    assert EncodedMessage(ps, msg)[2 + |ps| + 1..] == msg;
  }

  /** The padding string for a modulus of n bytes: as many non-zero draws as fit. */
  function PaddingString(draws: seq<nat>, n: nat, m: nat): seq<byte>
    requires m + 3 <= n && |NonZeroBytes(draws)| >= n - m - 3
  {
    NonZeroBytes(draws)[..n - m - 3]
  }

  /** Draws one non-zero byte, as the inner do-while does. */
  method DrawNonZero(draws: seq<nat>, d: nat) returns (b: byte, d': nat)
    requires d <= |draws| && |NonZeroBytes(draws[..d])| < |NonZeroBytes(draws)|
    ensures d < d' <= |draws|
    ensures NonZeroBytes(draws[..d']) == NonZeroBytes(draws[..d]) + [b]
  {
    b, d' := 0, d;
    while b == 0
      invariant d <= d' <= |draws| && (b != 0 ==> d < d')
      invariant NonZeroBytes(draws[..d']) == NonZeroBytes(draws[..d]) + if b == 0 then [] else [b]
      decreases b == 0, |draws| - d'
    {
      assert draws[..|draws|] == draws;
      b := draws[d'] % 256;
      assert draws[..d' + 1][..d'] == draws[..d'];
      d' := d' + 1;
    }
  }

  lemma NoDraws()
    ensures NonZeroBytes([]) == []
  {
  }

  /** The padded block 00 02 PS 00 M. */
  method PadMessage(msg: array<byte>, n: int, draws: seq<nat>) returns (padded: array<byte>)
    requires msg.Length + 11 <= n && |NonZeroBytes(draws)| >= n - msg.Length - 3
    ensures padded.Length == n
    ensures padded[..] == EncodedMessage(PaddingString(draws, n, msg.Length), msg[..])
  {
    hide NonZeroBytes;
    NoDraws();
    padded := new byte[n](_ => 0);
    padded[0] := 0x00;
    padded[1] := 0x02;
    var padLen := n - msg.Length - 3;
    var i := 0;
    var next := 0;
    assert draws[..0] == [];
    while i < padLen
      invariant 0 <= i <= padLen && 0 <= next <= |draws|
      invariant padded[0] == 0 && padded[1] == 2
      invariant padded[2..2 + i] == NonZeroBytes(draws[..next])
    {
      ghost var before := padded[2..2 + i];
      var b: byte;
      b, next := DrawNonZero(draws, next);
      padded[2 + i] := b;
      assert padded[2..2 + i + 1] == before + [b];
      i := i + 1;
    }
    NonZeroPrefix(draws, next);
    ghost var ps := PaddingString(draws, n, msg.Length);
    assert padded[2..2 + padLen] == ps;
    padded[2 + padLen] := 0x00;
    forall k | 0 <= k < msg.Length {
      padded[3 + padLen + k] := msg[k];
    }
    assert padded[..2] == [0, 2];
    assert padded[2..2 + padLen] == ps;
    assert padded[3 + padLen..] == msg[..];
    assert padded[..] == padded[..2] + padded[2..2 + padLen] + [padded[2 + padLen]] + padded[3 + padLen..];
  }

  /** Encrypts msg under (n, e) into out; -1 when msg is too long for the modulus. */
  method RsaEncrypt(nBytes: array<byte>, eBytes: array<byte>, msg: array<byte>, draws: seq<nat>, out: array<byte>)
    returns (rc: int)
    requires nBytes.Length <= 2046 && eBytes.Length <= 4094 && out.Length <= 32767
    requires BeValue(nBytes[..]) > 0
    requires |NonZeroBytes(draws)| >= nBytes.Length - msg.Length - 3
    modifies out
    ensures rc == if msg.Length > nBytes.Length - 11 then -1 else 0
    ensures rc == -1 ==> out[..] == old(out[..])
    ensures rc == 0 ==> out[..] == old(Ciphertext(nBytes[..], eBytes[..],
      EncodedMessage(PaddingString(draws, nBytes.Length, msg.Length), msg[..]), out.Length))
  {
    if msg.Length > nBytes.Length - 11 {
      return -1;
    }
    var padded := PadMessage(msg, nBytes.Length, draws);
    var n := BnFromBytes(nBytes);
    var e := BnFromBytes(eBytes);
    var m := BnFromBytes(padded);
    var c := BnModPow(m, e, n);
    BnToBytes(c, out);
    return 0;
  }

  /** What is written: em^e mod n as a big-endian string of the given length. */
  function Ciphertext(n: seq<byte>, e: seq<byte>, em: seq<byte>, len: nat): seq<byte>
    requires BeValue(n) > 0
  {
    BeBytes(PowMod(BeValue(em), BeValue(e), BeValue(n)), len)
  }

  /** With a positive exponent and room for the modulus, the ciphertext is the fixed-length
      encoding of em^e mod n and nothing is truncated. */
  lemma CiphertextValue(n: seq<byte>, e: seq<byte>, em: seq<byte>, len: nat)
    requires BeValue(n) > 0 && BeValue(e) > 0 && len >= |n|
    ensures |Ciphertext(n, e, em, len)| == len
    ensures BeValue(Ciphertext(n, e, em, len)) == Pow(BeValue(em), BeValue(e)) % BeValue(n)
  {
    hide *;
    var v := PowMod(BeValue(em), BeValue(e), BeValue(n));
    PowModReduced(BeValue(em), BeValue(e), BeValue(n));
    BeBytesValue(v, len);
    BeValueBytes(n);
    PowGrows(256, |n|, len);
    RemainderSmall(v, Pow(256, len));
    CiphertextDef(n, e, em, len);
  }

  lemma CiphertextDef(n: seq<byte>, e: seq<byte>, em: seq<byte>, len: nat)
    requires BeValue(n) > 0
    ensures Ciphertext(n, e, em, len) == BeBytes(PowMod(BeValue(em), BeValue(e), BeValue(n)), len)
  {
  }

  lemma PowModReduced(base: nat, exp: nat, m: nat)
    requires m > 0 && exp > 0
    ensures PowMod(base, exp, m) == Pow(base, exp) % m < m
  {
  }

  /** The block starts with a zero byte, so it is below every modulus of its own length
      whose first byte is not zero: encryption does not wrap it. */
  lemma EncodedMessageBelowModulus(ps: seq<byte>, msg: seq<byte>, n: seq<byte>)
    requires |n| == |ps| + |msg| + 3 && n[0] != 0
    ensures BeValue(EncodedMessage(ps, msg)) < BeValue(n)
  {
    hide Pow, BeValue;
    var em := EncodedMessage(ps, msg);
    assert em == [0] + em[1..] && n == [n[0]] + n[1..];
    BeValueCons(0, em[1..]);
    BeValueCons(n[0], n[1..]);
    BeValueBytes(em[1..]);
    MulLe(1, n[0], Pow(256, |n| - 1));
  }
}
