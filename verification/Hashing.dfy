/**
 What SHA-1 and SHA-256 have in common: a compression function folded over the 64-byte blocks
 of the padded message (sections 5.1.1 and 6 of FIPS 180-4). The proofs never look inside the
 compression functions.
 */
module Hashing {
  import opened Octets
  import opened Powers
  import opened Aes
  import opened Compression

  /** The compression function over the whole blocks of m; a last partial block is ignored. */
  function Fold(alg: Alg, h: seq<bv32>, m: seq<bv8>): (h': seq<bv32>)
    requires |h| == Width(alg)
    ensures |h'| == Width(alg)
    decreases |m|
  {
    if |m| < 64 then h else Fold(alg, Transform(alg, h, m[..64]), m[64..])
  }

  /** The bytes after the last whole block. */
  function Tail(m: seq<bv8>): (t: seq<bv8>)
    ensures |t| == |m| % 64
  {
    m[|m| - |m| % 64..]
  }

  lemma {:induction false} FoldConcat(alg: Alg, h: seq<bv32>, a: seq<bv8>, b: seq<bv8>)
    requires |h| == Width(alg) && |a| % 64 == 0
    ensures Fold(alg, h, a + b) == Fold(alg, Fold(alg, h, a), b)
    decreases |a|
  {
    hide Transform;
    if |a| < 64 {
      assert a + b == b;
    } else {
      assert (a + b)[..64] == a[..64] && (a + b)[64..] == a[64..] + b;
      FoldConcat(alg, Transform(alg, h, a[..64]), a[64..], b);
    }
  }

  lemma FoldShort(alg: Alg, h: seq<bv32>, m: seq<bv8>)
    requires |h| == Width(alg) && |m| < 64
    ensures Fold(alg, h, m) == h
  {
  }

  lemma FoldOne(alg: Alg, h: seq<bv32>, b: seq<bv8>)
    requires |h| == Width(alg) && |b| == 64
    ensures Fold(alg, h, b) == Transform(alg, h, b)
  {
    hide Transform;
    assert b[..64] == b && b[64..] == [];
  }

  /** The whole blocks, the tail and what is appended. */
  lemma SplitTail(m: seq<bv8>, x: seq<bv8>)
    ensures var w := m[..|m| - |m| % 64];
      |w| % 64 == 0 && m == w + Tail(m) && m + x == w + (Tail(m) + x)
    ensures |m| % 64 + |x| < 64 ==> Tail(m + x) == Tail(m) + x
    ensures |m| % 64 + |x| == 64 ==> Tail(m + x) == []
  {
    if |m| % 64 + |x| < 64 {
      assert |m + x| % 64 == |m| % 64 + |x|;
    }
  }

  /** Appending fewer bytes than complete the block only extends the tail. */
  lemma FoldPartial(alg: Alg, h: seq<bv32>, m: seq<bv8>, x: seq<bv8>)
    requires |h| == Width(alg) && |m| % 64 + |x| < 64
    ensures Fold(alg, h, m + x) == Fold(alg, h, m) && Tail(m + x) == Tail(m) + x
  {
    hide Transform, Fold;
    SplitTail(m, x);
    var w := m[..|m| - |m| % 64];
    FoldConcat(alg, h, w, Tail(m));
    FoldConcat(alg, h, w, Tail(m) + x);
    FoldShort(alg, Fold(alg, h, w), Tail(m));
    FoldShort(alg, Fold(alg, h, w), Tail(m) + x);
  }

  /** Completing the block compresses it. */
  lemma FoldBlock(alg: Alg, h: seq<bv32>, m: seq<bv8>, x: seq<bv8>)
    requires |h| == Width(alg) && |m| % 64 + |x| == 64
    ensures Fold(alg, h, m + x) == Transform(alg, Fold(alg, h, m), Tail(m) + x) && Tail(m + x) == []
  {
    hide Transform, Fold;
    SplitTail(m, x);
    var w := m[..|m| - |m| % 64];
    FoldConcat(alg, h, w, Tail(m));
    FoldConcat(alg, h, w, Tail(m) + x);
    FoldShort(alg, Fold(alg, h, w), Tail(m));
    FoldOne(alg, Fold(alg, h, w), Tail(m) + x);
  }

  // ---- Padding ----

  /** The low-order 64 bits of v as eight bytes, most significant first. */
  function Length64(v: nat): (b: seq<bv8>)
    ensures |b| == 8
  {
    [Byte(v / 0x100_0000_0000_0000), Byte(v / 0x1_0000_0000_0000), Byte(v / 0x100_0000_0000), Byte(v / 0x1_0000_0000),
     Byte(v / 0x100_0000), Byte(v / 0x1_0000), Byte(v / 0x100), Byte(v)]
  }

  /** The length field is the number in 64 bits, high-order byte first. */
  lemma Length64Number(v: nat)
    ensures Number(Length64(v)) == v % 0x1_0000_0000_0000_0000
  {
    hide Byte, Number;
    var b := Length64(v);
    NoBytes();
    assert b[..0] == [] && b[..8] == b && v / 1 == v;
    NumberAt(b, 0, v, 0x100_0000_0000_0000, 1);
    NumberAt(b, 1, v, 0x1_0000_0000_0000, 0x100);
    NumberAt(b, 2, v, 0x100_0000_0000, 0x1_0000);
    NumberAt(b, 3, v, 0x1_0000_0000, 0x100_0000);
    NumberAt(b, 4, v, 0x100_0000, 0x1_0000_0000);
    NumberAt(b, 5, v, 0x1_0000, 0x100_0000_0000);
    NumberAt(b, 6, v, 0x100, 0x1_0000_0000_0000);
    NumberAt(b, 7, v, 1, 0x100_0000_0000_0000);
  }

  /** The number of zero bytes between the 0x80 and the length. */
  function ZeroCount(n: nat): (k: nat)
    ensures (n + 1 + k) % 64 == 56 && k < 64
  {
    (119 - n % 64) % 64
  }

  function Zeros(k: nat): (z: seq<bv8>)
    ensures |z| == k
  {
    seq(k, _ => 0)
  }

  /** m padded to whole blocks with the given number in the length field. */
  function PadWith(m: seq<bv8>, bits: nat): (p: seq<bv8>)
    ensures |p| % 64 == 0
  {
    m + [0x80] + Zeros(ZeroCount(|m|)) + Length64(bits)
  }

  /** The padding of section 5.1.1 of FIPS 180-4. */
  function Pad(m: seq<bv8>): seq<bv8>
  {
    PadWith(m, 8 * |m|)
  }

  /** The message, a one bit, fewer than 64 zero bytes, and the length in bits as a 64-bit number. */
  lemma PadLayout(m: seq<bv8>)
    ensures var p, n := Pad(m), |m|;
      |p| % 64 == 0 && n + 9 <= |p| < n + 9 + 64 && p[..n] == m && p[n] == 0x80 &&
      (forall k :: n < k < |p| - 8 ==> p[k] == 0) && Number(p[|p| - 8..]) == 8 * n % 0x1_0000_0000_0000_0000
  {
    hide Length64, Number;
    var p, k := Pad(m), ZeroCount(|m|);
    Length64Number(8 * |m|);
    assert p[|p| - 8..] == Length64(8 * |m|);
  }

  /** The digest: the words of the final chaining value, big-endian. */
  function WordsToBytes(h: seq<bv32>): (b: seq<bv8>)
    ensures |b| == 4 * |h|
  {
    if h == [] then []
    else
      var w := h[|h| - 1];
      WordsToBytes(h[..|h| - 1]) + [Byte3(w), Byte2(w), Byte1(w), Byte0(w)]
  }

  /** Its bytes are those of the words in order, each with its high-order byte first. */
  lemma {:induction false} DigestWords(h: seq<bv32>, i: nat)
    requires i < |h|
    ensures var b := WordsToBytes(h);
      h[i] == Word(b[4 * i], b[4 * i + 1], b[4 * i + 2], b[4 * i + 3])
    decreases |h|
  {
    WordOfWord(h[i]);
    hide Byte0, Byte1, Byte2, Byte3, Word;
    if i < |h| - 1 {
      DigestWords(h[..|h| - 1], i);
    }
  }

  lemma WordOfWord(w: bv32)
    ensures Word(Byte3(w), Byte2(w), Byte1(w), Byte0(w)) == w
  {
  }

  /** If the digits above weight d agree and so does the digit at d, all from d up agree. */
  lemma NextDigit(v: nat, w: nat, d: nat)
    requires d > 0 && v / (d * 256) == w / (d * 256) && Byte(v / d) == Byte(w / d)
    ensures v / d == w / d
  {
    hide Byte;
    DivDiv(v, d, 256);
    DivDiv(w, d, 256);
    ByteNumber(v / d);
    ByteNumber(w / d);
    SameDigits(v / d, w / d);
  }

  lemma SameDigits(x: nat, y: nat)
    requires x / 256 == y / 256 && x % 256 == y % 256
    ensures x == y
  {
  }

  /** The length field determines the length modulo 2^64. */
  lemma Length64Injective(v: nat, w: nat)
    requires Length64(v) == Length64(w) && v < 0x1_0000_0000_0000_0000 && w < 0x1_0000_0000_0000_0000
    ensures v == w
  {
    hide Byte;
    var a, b := Length64(v), Length64(w);
    assert a[0] == b[0] && a[1] == b[1] && a[2] == b[2] && a[3] == b[3];
    assert a[4] == b[4] && a[5] == b[5] && a[6] == b[6] && a[7] == b[7];
    NextDigit(v, w, 0x100_0000_0000_0000);
    NextDigit(v, w, 0x1_0000_0000_0000);
    NextDigit(v, w, 0x100_0000_0000);
    NextDigit(v, w, 0x1_0000_0000);
    NextDigit(v, w, 0x100_0000);
    NextDigit(v, w, 0x1_0000);
    NextDigit(v, w, 0x100);
    NextDigit(v, w, 1);
  }

  /** Two paddings of the same message agree exactly when their length fields do. */
  lemma PadWithExact(m: seq<bv8>, v: nat, w: nat)
    requires v < 0x1_0000_0000_0000_0000 && w < 0x1_0000_0000_0000_0000
    ensures PadWith(m, v) == PadWith(m, w) <==> v == w
  {
    hide Length64;
    if PadWith(m, v) == PadWith(m, w) {
      var n := |m| + 1 + ZeroCount(|m|);
      assert PadWith(m, v)[n..] == Length64(v) && PadWith(m, w)[n..] == Length64(w);
      Length64Injective(v, w);
    }
  }

  /** Distinct messages of representable length have distinct paddings. */
  lemma PadInjective(m: seq<bv8>, m': seq<bv8>)
    requires Pad(m) == Pad(m') && 8 * |m| < 0x1_0000_0000_0000_0000 && 8 * |m'| < 0x1_0000_0000_0000_0000
    ensures m == m'
  {
    hide Length64, ZeroCount;
    var p := Pad(m);
    assert p[|p| - 8..] == Length64(8 * |m|) && Pad(m')[|p| - 8..] == Length64(8 * |m'|);
    Length64Injective(8 * |m|, 8 * |m'|);
    assert p[..|m|] == m && Pad(m')[..|m|] == m';
  }

  // ---- The block buffer ----

  /** The chaining value with a partly filled block, shared by both hash states. */
  class Blocks {
    const alg: Alg
    var h: seq<bv32>
    const block: array<bv8>
    var blkused: int

    /** The chaining value and the buffered bytes are those of the message m. */
    ghost predicate Absorbed(m: seq<bv8>)
      reads this, block
    {
      block.Length == 64 && blkused == |m| % 64 &&
      h == Fold(alg, Initial(alg), m) && block[..blkused] == Tail(m)
    }

    constructor (a: Alg)
      ensures fresh(block) && alg == a && Absorbed([])
    {
      alg := a;
      h := Initial(a);
      block := new bv8[64](_ => 0);
      blkused := 0;
      new;
      assert block[..0] == [];
    }

    /** memcpy into the block at blkused. */
    method Buffer(d: seq<bv8>)
      requires block.Length == 64 && 0 <= blkused && blkused + |d| <= 64
      modifies block
      ensures block[..blkused + |d|] == old(block[..blkused]) + d
    {
      forall k | 0 <= k < |d| {
        block[blkused + k] := d[k];
      }
      assert block[..blkused + |d|] == block[..blkused] + block[blkused..blkused + |d|];
    }

    /** memcpy that fills the block up, then the transform on it. */
    method Complete(x: seq<bv8>, ghost m: seq<bv8>)
      requires Absorbed(m) && blkused + |x| == 64
      modifies this, block
      ensures Absorbed(m + x) && blkused == 0
    {
      hide Fold, Tail, Transform, Initial;
      FoldBlock(alg, Initial(alg), m, x);
      Buffer(x);
      assert block[..] == block[..64];
      h := Compress(alg, h, block[..]);
      blkused := 0;
      assert block[..0] == [];
    }

    /** The transform straight from the input while the buffer is empty. */
    method Direct(x: seq<bv8>, ghost m: seq<bv8>)
      requires Absorbed(m) && blkused == 0 && |x| == 64
      modifies this`h
      ensures Absorbed(m + x)
    {
      hide Fold, Tail, Transform, Initial;
      FoldBlock(alg, Initial(alg), m, x);
      assert block[..0] == [] && [] + x == x;
      h := Compress(alg, h, x);
    }

    /** memcpy of what does not fill the block. */
    method Append(x: seq<bv8>, ghost m: seq<bv8>)
      requires Absorbed(m) && blkused + |x| < 64
      modifies this`blkused, block
      ensures Absorbed(m + x)
    {
      hide Fold, Tail, Transform, Initial;
      FoldPartial(alg, Initial(alg), m, x);
      Buffer(x);
      blkused := blkused + |x|;
    }
  }

  lemma PaddingGoesOn(n: nat, j: nat)
    requires j <= ZeroCount(n) && (n + 1 + j) % 64 != 56
    ensures j < ZeroCount(n)
  {
  }

  lemma PaddingStops(n: nat, j: nat)
    requires j <= ZeroCount(n) && (n + 1 + j) % 64 == 56
    ensures j == ZeroCount(n)
  {
  }

  /** The digest words, big-endian. */
  method StoreDigest(h: seq<bv32>, digest: array<bv8>)
    requires 4 * |h| <= digest.Length
    modifies digest
    ensures digest[..4 * |h|] == WordsToBytes(h)
    ensures digest[4 * |h|..] == old(digest[4 * |h|..])
  {
    hide Byte0, Byte1, Byte2, Byte3, WordsToBytes;
    var i := 0;
    NoWords();
    while i < |h|
      invariant 0 <= i <= |h|
      invariant digest[..4 * i] == WordsToBytes(h[..i])
      invariant digest[4 * |h|..] == old(digest[4 * |h|..])
    {
      ghost var done := digest[..4 * i];
      digest[4 * i] := Byte3(h[i]);
      digest[4 * i + 1] := Byte2(h[i]);
      digest[4 * i + 2] := Byte1(h[i]);
      digest[4 * i + 3] := Byte0(h[i]);
      WordsSnoc(h[..i], h[i]);
      assert h[..i + 1] == h[..i] + [h[i]];
      assert digest[..4 * i + 4] == done + [Byte3(h[i]), Byte2(h[i]), Byte1(h[i]), Byte0(h[i])];
      i := i + 1;
    }
    assert h[..|h|] == h;
  }

  lemma NoWords()
    ensures WordsToBytes([]) == []
  {
  }

  lemma WordsSnoc(h: seq<bv32>, w: bv32)
    ensures WordsToBytes(h + [w]) == WordsToBytes(h) + [Byte3(w), Byte2(w), Byte1(w), Byte0(w)]
  {
    hide Byte0, Byte1, Byte2, Byte3;
    assert (h + [w])[..|h|] == h;
  }
}
