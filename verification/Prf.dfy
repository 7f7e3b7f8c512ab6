/** HMAC over the two hashes and the TLS 1.2 pseudo-random function. */
module Prf {
  import opened Compression
  import opened Hashing
  import Sha1
  import Sha256

  /** The first 64 key bytes added into 64 bytes of c: the code's ipad and opad. */
  function KeyPad(key: seq<bv8>, c: bv8): (p: seq<bv8>)
    ensures |p| == 64
  {
    seq(64, i requires 0 <= i < 64 => if i < |key| then c ^ key[i] else c)
  }

  function HmacSha1(key: seq<bv8>, data: seq<bv8>): (mac: seq<bv8>)
    ensures |mac| == 20
  {
    Sha1.Standard(KeyPad(key, 0x5c) + Sha1.Standard(KeyPad(key, 0x36) + data))
  }

  function HmacSha256(key: seq<bv8>, data: seq<bv8>): (mac: seq<bv8>)
    ensures |mac| == 32
  {
    Sha256.Standard(KeyPad(key, 0x5c) + Sha256.Standard(KeyPad(key, 0x36) + data))
  }

  // ---- RFC 2104 ----

  function Hash(alg: Alg, m: seq<bv8>): (d: seq<bv8>)
    ensures |d| <= 32
  {
    if alg == SHA1 then Sha1.Standard(m) else Sha256.Standard(m)
  }

  function XorBytes(x: seq<bv8>, y: seq<bv8>): (z: seq<bv8>)
    requires |x| == |y|
    ensures |z| == |x|
  {
    seq(|x|, i requires 0 <= i < |x| => x[i] ^ y[i])
  }

  function Repeated(b: bv8, n: nat): (s: seq<bv8>)
    ensures |s| == n
  {
    seq(n, _ => b)
  }

  /** Step 1 of section 2: a key longer than a block is hashed first, then zero bytes fill it up. */
  function BlockKey(alg: Alg, key: seq<bv8>): (k: seq<bv8>)
    ensures |k| == 64
  {
    var hashed := if |key| > 64 then Hash(alg, key) else key;
    hashed + Repeated(0, 64 - |hashed|)
  }

  /** Steps 2 to 7. */
  function Rfc2104(alg: Alg, key: seq<bv8>, text: seq<bv8>): seq<bv8>
  {
    var k := BlockKey(alg, key);
    Hash(alg, XorBytes(k, Repeated(0x5C, 64)) + Hash(alg, XorBytes(k, Repeated(0x36, 64)) + text))
  }

  /** The code's pad is the filled-up key added to a block of c. */
  lemma PadIs(alg: Alg, key: seq<bv8>, c: bv8)
    requires |key| <= 64
    ensures KeyPad(key, c) == XorBytes(BlockKey(alg, key), Repeated(c, 64))
  {
    var k := BlockKey(alg, key);
    var x := XorBytes(k, Repeated(c, 64));
    forall i | 0 <= i < 64 ensures KeyPad(key, c)[i] == x[i] {
      XorSwap(k[i], c);
    }
  }

  lemma XorSwap(x: bv8, c: bv8)
    ensures x ^ c == c ^ x && 0 ^ c == c
  {
  }

  lemma ShortKey(alg: Alg, key: seq<bv8>, data: seq<bv8>)
    requires |key| <= 64
    ensures (if alg == SHA1 then HmacSha1(key, data) else HmacSha256(key, data)) == Rfc2104(alg, key, data)
  {
    hide KeyPad, XorBytes, BlockKey, Repeated, Sha1.Standard, Sha256.Standard;
    PadIs(alg, key, 0x36);
    PadIs(alg, key, 0x5c);
  }

  lemma LongKey(key: seq<bv8>, c: bv8)
    requires |key| > 64
    ensures KeyPad(key, c) == KeyPad(key[..64], c)
  {
  }

  /** Up to 64 bytes the code computes HMAC; a longer key is cut off there instead of hashed. */
  lemma LongKeyIsCut(key: seq<bv8>, data: seq<bv8>)
    ensures |key| <= 64 ==> HmacSha256(key, data) == Rfc2104(SHA256, key, data) && HmacSha1(key, data) == Rfc2104(SHA1, key, data)
    ensures |key| > 64 ==> HmacSha256(key, data) == HmacSha256(key[..64], data) && HmacSha1(key, data) == HmacSha1(key[..64], data)
  {
    if |key| > 64 {
      hide KeyPad, Sha1.Standard, Sha256.Standard;
      LongKey(key, 0x36);
      LongKey(key, 0x5c);
    } else {
      hide *;
      ShortKey(SHA1, key, data);
      ShortKey(SHA256, key, data);
    }
  }

  /** memset followed by the key loop. */
  method FillPad(key: seq<bv8>, c: bv8) returns (pad: array<bv8>)
    ensures pad.Length == 64 && pad[..] == KeyPad(key, c)
  {
    pad := new bv8[64](_ => c);
    var i := 0;
    while i < |key| && i < 64
      invariant 0 <= i <= 64 && i <= |key|
      invariant forall k :: 0 <= k < 64 ==> pad[k] == if k < i then KeyPad(key, c)[k] else c
    {
      pad[i] := pad[i] ^ key[i];
      i := i + 1;
    }
    assert pad[..] == KeyPad(key, c);
  }

  /** One hash computation over two pieces. */
  method HashTwo256(x: seq<bv8>, y: seq<bv8>, out: array<bv8>)
    requires |x| <= 64 && |y| <= 32704 && out.Length >= 32
    modifies out
    ensures out[..32] == Sha256.Standard(x + y)
    ensures out[32..] == old(out[32..])
  {
    hide Sha256.Standard, Sha256.Digest, PadWith, Sha256.State.Valid;
    var ctx := new Sha256.State();
    ctx.Update(x);
    ctx.Update(y);
    assert [] + x + y == x + y;
    ctx.Final(out);
    Sha256.DigestIsStandard(x + y);
  }

  /** One hash computation over two pieces. */
  method HashTwo1(x: seq<bv8>, y: seq<bv8>, out: array<bv8>)
    requires |x| <= 64 && |y| <= 32704 && out.Length >= 20
    modifies out
    ensures out[..20] == Sha1.Standard(x + y)
    ensures out[20..] == old(out[20..])
  {
    hide Sha1.Standard, Sha1.Digest, PadWith, Sha1.Context.Valid;
    var ctx := new Sha1.Context();
    ctx.Update(x);
    ctx.Update(y);
    assert [] + x + y == x + y;
    ctx.Final(out);
    Sha1.DigestIsStandard(x + y);
  }

  /** out may be the data buffer itself: the data is absorbed before out is written. */
  method MacSha256(key: seq<bv8>, data: array<bv8>, out: array<bv8>)
    requires data.Length <= 32704 && out.Length >= 32
    modifies out
    ensures out[..32] == HmacSha256(key, old(data[..]))
    ensures out[32..] == old(out[32..])
  {
    hide Sha256.Standard, KeyPad;
    var ipad := FillPad(key, 0x36);
    var opad := FillPad(key, 0x5c);
    var tmp := new bv8[32];
    HashTwo256(ipad[..], data[..], tmp);
    assert tmp[..] == tmp[..32];
    HashTwo256(opad[..], tmp[..], out);
  }

  method MacSha1(key: seq<bv8>, data: array<bv8>, out: array<bv8>)
    requires data.Length <= 32704 && out.Length >= 20
    modifies out
    ensures out[..20] == HmacSha1(key, old(data[..]))
    ensures out[20..] == old(out[20..])
  {
    hide Sha1.Standard, KeyPad;
    var ipad := FillPad(key, 0x36);
    var opad := FillPad(key, 0x5c);
    var tmp := new bv8[20];
    HashTwo1(ipad[..], data[..], tmp);
    assert tmp[..] == tmp[..20];
    HashTwo1(opad[..], tmp[..], out);
  }

  // ---- P_SHA256 (section 5 of RFC 5246) ----

  /** A(0) = seed, A(i) = HMAC(secret, A(i - 1)). */
  function A(secret: seq<bv8>, seed: seq<bv8>, i: nat): seq<bv8>
  {
    if i == 0 then seed else HmacSha256(secret, A(secret, seed, i - 1))
  }

  /** The first n blocks of P_SHA256(secret, seed). */
  function PHash(secret: seq<bv8>, seed: seq<bv8>, n: nat): seq<bv8>
  {
    if n == 0 then []
    else PHash(secret, seed, n - 1) + HmacSha256(secret, A(secret, seed, n) + seed)
  }

  lemma {:induction false} PHashLength(secret: seq<bv8>, seed: seq<bv8>, n: nat)
    ensures |PHash(secret, seed, n)| == 32 * n
  {
    hide A, HmacSha256;
    if n > 0 {
      PHashLength(secret, seed, n - 1);
    }
  }

  /** PRF(secret, label, seed): the first len bytes of P_SHA256(secret, label ++ seed). */
  function Output(secret: seq<bv8>, lab: seq<bv8>, seed: seq<bv8>, len: nat): (o: seq<bv8>)
    ensures |o| == len
  {
    PHashLength(secret, lab + seed, (len + 31) / 32);
    PHash(secret, lab + seed, (len + 31) / 32)[..len]
  }

  lemma {:induction false} PHashPrefix(secret: seq<bv8>, seed: seq<bv8>, n: nat, k: nat)
    requires k <= n
    ensures PHash(secret, seed, k) <= PHash(secret, seed, n)
  {
    hide A, HmacSha256;
    if k < n {
      PHashPrefix(secret, seed, n - 1, k);
    }
  }

  /** Asking for less gives a prefix of asking for more. */
  lemma OutputPrefix(secret: seq<bv8>, lab: seq<bv8>, seed: seq<bv8>, short: nat, long: nat)
    requires short <= long
    ensures Output(secret, lab, seed, short) == Output(secret, lab, seed, long)[..short]
  {
    hide PHash;
    var s := lab + seed;
    PHashPrefix(secret, s, (long + 31) / 32, (short + 31) / 32);
    PHashLength(secret, s, (short + 31) / 32);
    PHashLength(secret, s, (long + 31) / 32);
  }

  /** P_hash of section 5 of RFC 5246 over HMAC of RFC 2104, from A(i) = a on. */
  function Expansion(secret: seq<bv8>, seed: seq<bv8>, a: seq<bv8>, blocks: nat): seq<bv8>
    decreases blocks
  {
    if blocks == 0 then []
    else
      var next := Rfc2104(SHA256, secret, a);
      Rfc2104(SHA256, secret, next + seed) + Expansion(secret, seed, next, blocks - 1)
  }

  lemma ExpansionStep(secret: seq<bv8>, seed: seq<bv8>, i: nat, n: nat)
    requires |secret| <= 64 && i < n
    ensures PHash(secret, seed, i) + Expansion(secret, seed, A(secret, seed, i), n - i)
         == PHash(secret, seed, i + 1) + Expansion(secret, seed, A(secret, seed, i + 1), n - (i + 1))
  {
    hide HmacSha256, HmacSha1, Rfc2104;
    var a, b := A(secret, seed, i), A(secret, seed, i + 1);
    LongKeyIsCut(secret, a);
    LongKeyIsCut(secret, b + seed);
    var block, more := HmacSha256(secret, b + seed), Expansion(secret, seed, b, n - (i + 1));
    assert Expansion(secret, seed, a, n - i) == block + more;
    hide A, Expansion;
    assert PHash(secret, seed, i + 1) == PHash(secret, seed, i) + block;
    assert PHash(secret, seed, i) + (block + more) == PHash(secret, seed, i) + block + more;
  }

  lemma {:induction false} ExpansionFrom(secret: seq<bv8>, seed: seq<bv8>, i: nat, n: nat)
    requires |secret| <= 64 && i <= n
    ensures PHash(secret, seed, n) == PHash(secret, seed, i) + Expansion(secret, seed, A(secret, seed, i), n - i)
    decreases n - i
  {
    hide A, PHash, Expansion;
    if i < n {
      ExpansionFrom(secret, seed, i + 1, n);
      ExpansionStep(secret, seed, i, n);
    } else {
      NothingExpanded(secret, seed, A(secret, seed, i));
    }
  }

  lemma NothingExpanded(secret: seq<bv8>, seed: seq<bv8>, a: seq<bv8>)
    ensures Expansion(secret, seed, a, 0) == []
  {
  }

  /** With a secret of up to 64 bytes, as TLS has, the output is that of RFC 5246. */
  lemma OutputIsPrf(secret: seq<bv8>, lab: seq<bv8>, seed: seq<bv8>, len: nat)
    requires |secret| <= 64
    ensures Output(secret, lab, seed, len) <= Expansion(secret, lab + seed, lab + seed, (len + 31) / 32)
  {
    hide HmacSha256, Rfc2104, Expansion;
    var n := (len + 31) / 32;
    ExpansionFrom(secret, lab + seed, 0, n);
    assert A(secret, lab + seed, 0) == lab + seed && PHash(secret, lab + seed, 0) == [];
    PHashLength(secret, lab + seed, n);
    assert PHash(secret, lab + seed, n) == Expansion(secret, lab + seed, lab + seed, n);
  }

  lemma FirstA(secret: seq<bv8>, seed: seq<bv8>)
    ensures A(secret, seed, 1) == HmacSha256(secret, seed)
  {
    assert A(secret, seed, 0) == seed;
  }

  /** Block n of the output and the value that follows A(n). */
  lemma NextBlock(secret: seq<bv8>, seed: seq<bv8>, n: nat)
    requires n > 0
    ensures PHash(secret, seed, n)
         == PHash(secret, seed, n - 1) + HmacSha256(secret, A(secret, seed, n) + seed)
    ensures A(secret, seed, n + 1) == HmacSha256(secret, A(secret, seed, n))
  {
  }

  /** Any number of blocks that covers the length has the output as its prefix. */
  lemma OutputIs(secret: seq<bv8>, lab: seq<bv8>, seed: seq<bv8>, len: nat, n: nat)
    requires len <= 32 * n
    ensures |PHash(secret, lab + seed, n)| == 32 * n
    ensures Output(secret, lab, seed, len) == PHash(secret, lab + seed, n)[..len]
  {
    hide PHash;
    var s := lab + seed;
    PHashPrefix(secret, s, n, (len + 31) / 32);
    PHashLength(secret, s, (len + 31) / 32);
    PHashLength(secret, s, n);
  }

  lemma NoBlocks(secret: seq<bv8>, seed: seq<bv8>)
    ensures PHash(secret, seed, 0) == []
  {
  }

  /** One block of output: HMAC(secret, A ++ seed). */
  method OutputBlock(secret: seq<bv8>, a: array<bv8>, lseed: array<bv8>, tmp: array<bv8>)
    requires a.Length == tmp.Length == 32 && 32 + lseed.Length <= 32704 && tmp != a && tmp != lseed
    modifies tmp
    ensures tmp[..] == HmacSha256(secret, a[..] + lseed[..])
  {
    hide HmacSha256;
    var concat := new bv8[32 + lseed.Length];
    forall k | 0 <= k < concat.Length {
      concat[k] := if k < 32 then a[k] else lseed[k - 32];
    }
    assert concat[..] == a[..] + lseed[..];
    MacSha256(secret, concat, tmp);
    assert tmp[..] == tmp[..32];
  }

  /** memcpy. */
  method Copy(from: array<bv8>, n: nat, out: array<bv8>, pos: nat)
    requires from != out && n <= from.Length && pos + n <= out.Length
    modifies out
    ensures out[..pos + n] == old(out[..pos]) + from[..n]
  {
    forall k | 0 <= k < n {
      out[pos + k] := from[k];
    }
    assert out[..pos + n] == out[..pos] + out[pos..pos + n];
  }

  method TlsPrf(secret: seq<bv8>, lab: seq<bv8>, seed: seq<bv8>, out: array<bv8>)
    requires 32 + |lab| + |seed| <= 32704 && out.Length <= 32767
    modifies out
    ensures out[..] == Output(secret, lab, seed, out.Length)
  {
    hide A, PHash, HmacSha256, Output;
    var a, tmp := new bv8[32], new bv8[32];
    ghost var ls := lab + seed;
    var lseed := new bv8[|lab| + |seed|];
    forall k | 0 <= k < lseed.Length {
      lseed[k] := (lab + seed)[k];
    }
    assert lseed[..] == ls;
    FirstA(secret, ls);
    NoBlocks(secret, ls);
    MacSha256(secret, lseed, a);
    assert a[..] == a[..32];
    ghost var n: nat, blocks := 0, PHash(secret, ls, 0);
    var pos := 0;
    while pos < out.Length
      invariant 0 <= pos <= out.Length && |blocks| == 32 * n
      invariant pos == if 32 * n < out.Length then 32 * n else out.Length
      invariant a[..] == A(secret, ls, n + 1)
      invariant blocks == PHash(secret, ls, n)
      invariant out[..pos] == blocks[..pos]
      invariant lseed[..] == ls
      decreases out.Length - pos
    {
      ghost var current := a[..];
      NextBlock(secret, ls, n + 1);
      OutputBlock(secret, a, lseed, tmp);
      blocks := blocks + tmp[..];
      assert blocks == PHash(secret, ls, n + 1);
      var tocopy := out.Length - pos;
      if tocopy > 32 {
        tocopy := 32;
      }
      Copy(tmp, tocopy, out, pos);
      assert out[..pos + tocopy] == blocks[..pos + tocopy];
      pos := pos + tocopy;
      assert a[..] == current;
      MacSha256(secret, a, a);
      assert a[..] == a[..32] == HmacSha256(secret, current);
      n := n + 1;
    }
    OutputIs(secret, lab, seed, out.Length, n);
    assert out[..] == out[..pos];
  }
}
