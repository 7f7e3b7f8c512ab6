/** The streaming SHA-1 state with its 64-bit length. */
module Sha1 {
  import opened Compression
  import opened Octets
  import opened Powers
  import opened Hashing

  /** What sha1_final writes for the message m: the length field holds 8|m| modulo 2^64. */
  function Digest(m: seq<bv8>): (d: seq<bv8>)
    ensures |d| == 20
  {
    WordsToBytes(Fold(SHA1, Initial(SHA1), PadWith(m, (8 * |m|) % 0x1_0000_0000_0000_0000)))
  }

  /** SHA-1 of FIPS 180-4. */
  function Standard(m: seq<bv8>): (d: seq<bv8>)
    ensures |d| == 20
  {
    WordsToBytes(Fold(SHA1, Initial(SHA1), Pad(m)))
  }

  /** Every message the standard admits (fewer than 2^64 bits) is padded as it says. */
  lemma DigestIsStandard(m: seq<bv8>)
    requires 8 * |m| < 0x1_0000_0000_0000_0000
    ensures Digest(m) == Standard(m)
  {
    hide Fold, WordsToBytes, PadWith;
  }

  /** The two words hold n modulo 2^64. */
  predicate Counted(hi: int, lo: int, n: nat)
  {
    0 <= lo < 0x1_0000_0000 && 0 <= hi < 0x1_0000_0000 &&
    hi * 0x1_0000_0000 + lo == n % 0x1_0000_0000_0000_0000
  }

  class Context {
    const blocks: Blocks
    var lenhi: int
    var lenlo: int
    /** Everything passed to Update since the context was initialised. */
    ghost var msg: seq<bv8>

    ghost predicate Valid()
      reads this, blocks, blocks.block
    {
      blocks.alg == SHA1 && blocks.Absorbed(msg) && Counted(lenhi, lenlo, |msg|)
    }

    constructor ()
      ensures fresh(blocks) && fresh(blocks.block) && Valid() && msg == []
    {
      blocks := new Blocks(SHA1);
      lenhi, lenlo := 0, 0;
      msg := [];
    }

    method Update(p: seq<bv8>)
      requires Valid() && |p| <= 32767 - 63
      modifies this, blocks, blocks.block
      ensures Valid() && msg == old(msg) + p
    {
      hide Fold, Tail, Counted;
      ghost var m := msg;
      var q := p;
      msg := msg + p;
      LengthAdds(lenhi, lenlo, |m|, |p|);
      lenlo := (lenlo + |p|) % 0x1_0000_0000;
      lenhi := (lenhi + if lenlo < |p| then 1 else 0) % 0x1_0000_0000;
      if blocks.blkused != 0 && blocks.blkused + |q| < 64 {
        blocks.Append(q, m);
      } else {
        while blocks.blkused + |q| >= 64
          invariant blocks.Absorbed(m) && (blocks.blkused == 0 || blocks.blkused + |q| >= 64)
          invariant m + q == msg && msg == old(msg) + p
          invariant Counted(lenhi, lenlo, |msg|)
          decreases |q|
        {
          var fill := 64 - blocks.blkused;
          blocks.Complete(q[..fill], m);
          m := m + q[..fill];
          q := q[fill..];
        }
        blocks.Append(q, m);
      }
      assert m + q == msg;
    }

    /** Pads, processes the last block or two and writes the digest. */
    method Final(out: array<bv8>)
      requires Valid() && out.Length >= 20 && out != blocks.block
      modifies this, blocks, blocks.block, out
      ensures out[..20] == Digest(old(msg))
      ensures out[20..] == old(out[20..])
      ensures Valid() && msg == PadWith(old(msg), (8 * |old(msg)|) % 0x1_0000_0000_0000_0000)
    {
      hide Fold, Tail, Initial, Length64, WordsToBytes, Byte, Counted, ZeroCount, Zeros;
      CountedRange(lenhi, lenlo, |msg|);
      ghost var m := msg;
      var pad := if blocks.blkused >= 56 then 56 + 64 - blocks.blkused else 56 - blocks.blkused;
      var hi := (lenhi * 8 + lenlo / 0x2000_0000) % 0x1_0000_0000;
      var lo := (lenlo * 8) % 0x1_0000_0000;
      LengthField(lenhi, lenlo, |m|);
      PadLength(|m|, pad);
      Update([0x80] + Zeros(pad - 1));
      Update([Byte(hi / 0x100_0000), Byte(hi / 0x1_0000), Byte(hi / 0x100), Byte(hi),
              Byte(lo / 0x100_0000), Byte(lo / 0x1_0000), Byte(lo / 0x100), Byte(lo)]);
      assert msg == PadWith(m, (8 * |m|) % 0x1_0000_0000_0000_0000);
      StoreDigest(blocks.h, out);
    }
  }

  lemma PadLength(n: nat, pad: int)
    requires pad == if n % 64 >= 56 then 56 + 64 - n % 64 else 56 - n % 64
    ensures pad - 1 == ZeroCount(n) && 0 < pad <= 64
  {
  }

  /** Adding to the low word with a carry into the high word adds modulo 2^64. */
  lemma LengthAdds(hi: int, lo: int, n: nat, k: nat)
    requires Counted(hi, lo, n) && k < 0x1_0000_0000
    ensures var lo' := (lo + k) % 0x1_0000_0000;
      Counted((hi + if lo' < k then 1 else 0) % 0x1_0000_0000, lo', n + k)
  {
    var w, q := 0x1_0000_0000, n / 0x1_0000_0000_0000_0000;
    var lo' := (lo + k) % w;
    var carry := (lo + k) / w;
    assert carry == if lo' < k then 1 else 0;
    var x := (hi + carry) * w + lo';
    assert x == n % 0x1_0000_0000_0000_0000 + k;
    assert n + k == x + q * 0x1_0000_0000_0000_0000;
    ModAddMultiple(x, q, 0x1_0000_0000_0000_0000);
    DivModUnique(x, hi + carry, w, lo');
    ModStep(x, w, w);
  }

  lemma CountedRange(hi: int, lo: int, n: nat)
    requires Counted(hi, lo, n)
    ensures 0 <= lo < 0x1_0000_0000 && 0 <= hi < 0x1_0000_0000
  {
  }

  /** The two words shifted left by three bits. */
  lemma ShiftedLength(hi: int, lo: int, n: nat)
    requires Counted(hi, lo, n)
    ensures ((hi * 8 + lo / 0x2000_0000) % 0x1_0000_0000) * 0x1_0000_0000 + (lo * 8) % 0x1_0000_0000
         == (8 * n) % 0x1_0000_0000_0000_0000
  {
    var w, q := 0x1_0000_0000, n / 0x1_0000_0000_0000_0000;
    var x := 8 * (hi * w + lo);
    assert 8 * n == x + (8 * q) * 0x1_0000_0000_0000_0000;
    ModAddMultiple(x, 8 * q, 0x1_0000_0000_0000_0000);
    assert x == (hi * 8 + lo / 0x2000_0000) * w + (lo * 8) % w;
    DivModUnique(x, hi * 8 + lo / 0x2000_0000, w, (lo * 8) % w);
    ModStep(x, w, w);
  }

  lemma HighByte(hi: nat, lo: nat, d: nat)
    requires lo < 0x1_0000_0000 && d > 0
    ensures Byte((hi * 0x1_0000_0000 + lo) / (0x1_0000_0000 * d)) == Byte(hi / d)
  {
    hide Byte;
    var v := hi * 0x1_0000_0000 + lo;
    DivModUnique(v, hi, 0x1_0000_0000, lo);
    DivDiv(v, 0x1_0000_0000, d);
  }

  lemma LowByte(hi: nat, lo: nat, d: nat, e: nat)
    requires d > 0 && (e * 256) * d == 0x1_0000_0000
    ensures Byte((hi * 0x1_0000_0000 + lo) / d) == Byte(lo / d)
  {
    MulAssoc(hi, e * 256, d);
    ModAddMultiple(lo, hi * (e * 256), d);
    MulAssoc(hi, e, 256);
    ModAddMultiple(lo / d, hi * e, 256);
  }

  /** A two-word length as bytes. */
  lemma LengthHalves(hi: nat, lo: nat)
    requires lo < 0x1_0000_0000
    ensures Length64(hi * 0x1_0000_0000 + lo)
         == [Byte(hi / 0x100_0000), Byte(hi / 0x1_0000), Byte(hi / 0x100), Byte(hi),
             Byte(lo / 0x100_0000), Byte(lo / 0x1_0000), Byte(lo / 0x100), Byte(lo)]
  {
    hide Byte;
    HighByte(hi, lo, 0x100_0000);
    HighByte(hi, lo, 0x1_0000);
    HighByte(hi, lo, 0x100);
    HighByte(hi, lo, 1);
    LowByte(hi, lo, 0x100_0000, 1);
    LowByte(hi, lo, 0x1_0000, 0x100);
    LowByte(hi, lo, 0x100, 0x1_0000);
    LowByte(hi, lo, 1, 0x100_0000);
  }

  /** The length field sha1_final assembles from the two words. */
  lemma LengthField(lenhi: int, lenlo: int, n: nat)
    requires Counted(lenhi, lenlo, n)
    ensures 0 <= lenlo && 0 <= lenhi
    ensures var hi := (lenhi * 8 + lenlo / 0x2000_0000) % 0x1_0000_0000;
      var lo := (lenlo * 8) % 0x1_0000_0000;
      Length64((8 * n) % 0x1_0000_0000_0000_0000)
      == [Byte(hi / 0x100_0000), Byte(hi / 0x1_0000), Byte(hi / 0x100), Byte(hi),
          Byte(lo / 0x100_0000), Byte(lo / 0x1_0000), Byte(lo / 0x100), Byte(lo)]
  {
    hide Byte, Length64;
    var hi := (lenhi * 8 + lenlo / 0x2000_0000) % 0x1_0000_0000;
    var lo := (lenlo * 8) % 0x1_0000_0000;
    ShiftedLength(lenhi, lenlo, n);
    LengthHalves(hi, lo);
  }
}
