/** The streaming SHA-256 state: block buffering and padding. */
module Sha256 {
  import opened Compression
  import opened Octets
  import opened Hashing

  /** What sha256_final writes for the message m: the high half of the length field is always
      zero and the low half is 8|m| modulo 2^32. */
  function Digest(m: seq<bv8>): (d: seq<bv8>)
    ensures |d| == 32
  {
    WordsToBytes(Fold(SHA256, Initial(SHA256), PadWith(m, (8 * |m|) % 0x1_0000_0000)))
  }

  /** SHA-256 of FIPS 180-4. */
  function Standard(m: seq<bv8>): (d: seq<bv8>)
    ensures |d| == 32
  {
    WordsToBytes(Fold(SHA256, Initial(SHA256), Pad(m)))
  }

  /** The padded message is the standard one exactly below 2^29 bytes. */
  lemma PaddingExact(m: seq<bv8>)
    requires 8 * |m| < 0x1_0000_0000_0000_0000
    ensures PadWith(m, (8 * |m|) % 0x1_0000_0000) == Pad(m) <==> |m| < 0x2000_0000
  {
    hide PadWith;
    PadWithExact(m, (8 * |m|) % 0x1_0000_0000, 8 * |m|);
  }

  lemma DigestIsStandard(m: seq<bv8>)
    requires |m| < 0x2000_0000
    ensures Digest(m) == Standard(m)
  {
    hide Fold, WordsToBytes;
    PaddingExact(m);
  }

  class State {
    const blocks: Blocks
    var totlen: int
    /** Everything passed to Update since Init. */
    ghost var msg: seq<bv8>

    ghost predicate Valid()
      reads this, blocks, blocks.block
    {
      blocks.alg == SHA256 && blocks.Absorbed(msg) && totlen == |msg| % 0x1_0000_0000
    }

    constructor ()
      ensures fresh(blocks) && fresh(blocks.block) && Valid() && msg == []
    {
      blocks := new Blocks(SHA256);
      totlen := 0;
      msg := [];
    }

    method Update(p: seq<bv8>)
      requires Valid() && |p| <= 32767 - 63
      modifies this, blocks, blocks.block
      ensures Valid() && msg == old(msg) + p
    {
      hide Fold, Tail, Initial;
      ghost var m := msg;
      var d := p;
      msg := msg + p;
      totlen := (totlen + |d|) % 0x1_0000_0000;
      if blocks.blkused > 0 && blocks.blkused + |d| >= 64 {
        var fill := 64 - blocks.blkused;
        blocks.Complete(d[..fill], m);
        m := m + d[..fill];
        d := d[fill..];
      }
      while |d| >= 64
        invariant blocks.Absorbed(m) && (blocks.blkused == 0 || blocks.blkused + |d| < 64)
        invariant m + d == msg
        invariant totlen == |msg| % 0x1_0000_0000 && msg == old(msg) + p
        decreases |d|
      {
        blocks.Direct(d[..64], m);
        m := m + d[..64];
        d := d[64..];
      }
      if |d| > 0 {
        blocks.Append(d, m);
        m := m + d;
      }
      assert m == msg;
    }

    /** Pads, processes the last block or two and writes the digest. */
    method Final(digest: array<bv8>)
      requires Valid() && digest.Length >= 32 && digest != blocks.block
      modifies this, blocks, blocks.block, digest
      ensures digest[..32] == Digest(old(msg))
      ensures digest[32..] == old(digest[32..])
      ensures Valid() && msg == PadWith(old(msg), (8 * |old(msg)|) % 0x1_0000_0000)
    {
      hide Fold, Tail, Initial, Length64, WordsToBytes, Byte;
      ghost var m := msg;
      var bits := (totlen * 8) % 0x1_0000_0000;
      BitCount(|m|);
      Update([0x80]);
      ghost var j := 0;
      assert Zeros(0) == [];
      while blocks.blkused != 56
        invariant Valid() && 0 <= j <= ZeroCount(|m|)
        invariant msg == m + [0x80] + Zeros(j)
        invariant digest[..] == old(digest[..])
        decreases ZeroCount(|m|) - j
      {
        PaddingGoesOn(|m|, j);
        Update([0]);
        assert Zeros(j + 1) == Zeros(j) + [0];
        j := j + 1;
      }
      PaddingStops(|m|, j);
      var lenbuf := [0, 0, 0, 0, Byte(bits / 0x100_0000), Byte(bits / 0x1_0000), Byte(bits / 0x100), Byte(bits)];
      ShortLength(bits);
      Update(lenbuf);
      StoreDigest(blocks.h, digest);
    }
  }

  lemma BitCount(n: nat)
    ensures ((n % 0x1_0000_0000) * 8) % 0x1_0000_0000 == (8 * n) % 0x1_0000_0000
  {
    var q := n / 0x1_0000_0000;
    assert 8 * n == (n % 0x1_0000_0000) * 8 + (8 * q) * 0x1_0000_0000;
  }

  lemma ShortLength(bits: nat)
    requires bits < 0x1_0000_0000
    ensures Length64(bits)
         == [0, 0, 0, 0, Byte(bits / 0x100_0000), Byte(bits / 0x1_0000), Byte(bits / 0x100), Byte(bits)]
  {
    assert Byte(0) == 0;
  }

  /** One call that does it all. */
  method Simple(p: seq<bv8>, digest: array<bv8>)
    requires |p| <= 32767 - 63 && digest.Length >= 32
    modifies digest
    ensures digest[..32] == Standard(p) && digest[32..] == old(digest[32..])
  {
    var s := new State();
    s.Update(p);
    assert [] + p == p;
    s.Final(digest);
    DigestIsStandard(p);
  }
}
