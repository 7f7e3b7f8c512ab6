/** Cipher block chaining over byte buffers, in place. */
module Cbc {
  import opened Aes

  // ---- Big-endian words (the GET32_BE and PUT32_BE macros) ----

  function BlockWords(b: seq<bv8>): (w: seq<bv32>)
    requires |b| == 16
    ensures |w| == 4
  {
    [Word(b[0], b[1], b[2], b[3]), Word(b[4], b[5], b[6], b[7]),
     Word(b[8], b[9], b[10], b[11]), Word(b[12], b[13], b[14], b[15])]
  }

  function WordBytes(w: bv32): (b: seq<bv8>)
    ensures |b| == 4
  {
    [Byte3(w), Byte2(w), Byte1(w), Byte0(w)]
  }

  function BlockBytes(w: seq<bv32>): (b: seq<bv8>)
    requires |w| == 4
    ensures |b| == 16
  {
    WordBytes(w[0]) + WordBytes(w[1]) + WordBytes(w[2]) + WordBytes(w[3])
  }

  lemma WordBytesWord(w: bv32)
    ensures Word(Byte3(w), Byte2(w), Byte1(w), Byte0(w)) == w
  {
  }

  lemma WordsOfBytes(w: seq<bv32>)
    requires |w| == 4
    ensures BlockWords(BlockBytes(w)) == w
  {
    hide Word, Byte0, Byte1, Byte2, Byte3;
    WordBytesWord(w[0]);
    WordBytesWord(w[1]);
    WordBytesWord(w[2]);
    WordBytesWord(w[3]);
  }

  lemma BytesOfWord(a: bv8, b: bv8, c: bv8, d: bv8)
    ensures WordBytes(Word(a, b, c, d)) == [a, b, c, d]
  {
    hide Word, Unpack;
    UnpackWord(a, b, c, d);
    UnpackDef(Word(a, b, c, d));
  }

  lemma BytesOfWords(b: seq<bv8>)
    requires |b| == 16
    ensures BlockBytes(BlockWords(b)) == b
  {
    hide Word, WordBytes;
    BytesOfWord(b[0], b[1], b[2], b[3]);
    BytesOfWord(b[4], b[5], b[6], b[7]);
    BytesOfWord(b[8], b[9], b[10], b[11]);
    BytesOfWord(b[12], b[13], b[14], b[15]);
  }

  function XorBlock(x: seq<bv32>, y: seq<bv32>): (z: seq<bv32>)
    requires |x| == 4 && |y| == 4
    ensures |z| == 4
  {
    [Xor(x[0], y[0]), Xor(x[1], y[1]), Xor(x[2], y[2]), Xor(x[3], y[3])]
  }

  lemma XorTwice(x: bv32, y: bv32)
    ensures Xor(x, Xor(x, y)) == y
  {
  }

  lemma XorBlockTwice(x: seq<bv32>, y: seq<bv32>)
    requires |x| == 4 && |y| == 4
    ensures XorBlock(x, XorBlock(x, y)) == y
  {
    hide Xor;
    XorTwice(x[0], y[0]);
    XorTwice(x[1], y[1]);
    XorTwice(x[2], y[2]);
    XorTwice(x[3], y[3]);
  }

  // ---- Chaining ----

  /** Encryption of the whole blocks of data; bytes after the last whole block stay. */
  function CbcEnc(key: seq<bv8>, iv: seq<bv32>, data: seq<bv8>): (out: seq<bv8>)
    requires KeyLength(|key|) && |iv| == 4
    ensures |out| == |data|
    decreases |data|
  {
    hide EncBlock, BlockWords, BlockBytes, XorBlock;
    if |data| < 16 then data
    else
      var c := EncBlock(key, XorBlock(iv, BlockWords(data[..16])));
      BlockBytes(c) + CbcEnc(key, c, data[16..])
  }

  function CbcDec(key: seq<bv8>, iv: seq<bv32>, data: seq<bv8>): (out: seq<bv8>)
    requires KeyLength(|key|) && |iv| == 4
    ensures |out| == |data|
    decreases |data|
  {
    hide DecBlock, BlockWords, BlockBytes, XorBlock;
    if |data| < 16 then data
    else
      var c := BlockWords(data[..16]);
      BlockBytes(XorBlock(iv, DecBlock(key, c))) + CbcDec(key, c, data[16..])
  }

  /** The chaining value after a ciphertext: its last whole block. */
  function ChainAfter(iv: seq<bv32>, cipher: seq<bv8>): (v: seq<bv32>)
    requires |iv| == 4
    ensures |v| == 4
    decreases |cipher|
  {
    if |cipher| < 16 then iv else ChainAfter(BlockWords(cipher[..16]), cipher[16..])
  }

  /** Decryption undoes encryption, whatever the length of the data. */
  lemma {:induction false} CbcRoundTrip(key: seq<bv8>, iv: seq<bv32>, data: seq<bv8>)
    requires KeyLength(|key|) && |iv| == 4
    ensures CbcDec(key, iv, CbcEnc(key, iv, data)) == data
    decreases |data|
  {
    hide EncBlock, DecBlock, BlockWords, BlockBytes, XorBlock;
    if |data| >= 16 {
      var p := BlockWords(data[..16]);
      var c := EncBlock(key, XorBlock(iv, p));
      var out := CbcEnc(key, iv, data);
      assert out[..16] == BlockBytes(c) && out[16..] == CbcEnc(key, c, data[16..]);
      WordsOfBytes(c);
      BlockRoundTrip(key, XorBlock(iv, p));
      XorBlockTwice(iv, p);
      BytesOfWords(data[..16]);
      CbcRoundTrip(key, c, data[16..]);
      assert data == data[..16] + data[16..];
    }
  }

  /** And encryption undoes decryption. */
  lemma {:induction false} CbcRoundTripBack(key: seq<bv8>, iv: seq<bv32>, data: seq<bv8>)
    requires KeyLength(|key|) && |iv| == 4
    ensures CbcEnc(key, iv, CbcDec(key, iv, data)) == data
    decreases |data|
  {
    hide EncBlock, DecBlock, BlockWords, BlockBytes, XorBlock;
    if |data| >= 16 {
      var c := BlockWords(data[..16]);
      var p := XorBlock(iv, DecBlock(key, c));
      var out := CbcDec(key, iv, data);
      assert out[..16] == BlockBytes(p) && out[16..] == CbcDec(key, c, data[16..]);
      WordsOfBytes(p);
      XorBlockTwice(iv, DecBlock(key, c));
      BlockRoundTripBack(key, c);
      BytesOfWords(data[..16]);
      CbcRoundTripBack(key, c, data[16..]);
      assert data == data[..16] + data[16..];
    }
  }

  // ---- In place ----

  method LoadWords(blk: array<bv8>, p: int, w: array<bv32>)
    requires 0 <= p && p + 16 <= blk.Length && w.Length == 4
    modifies w
    ensures w[..] == BlockWords(blk[p..p + 16])
  {
    hide Word;
    w[0] := Word(blk[p], blk[p + 1], blk[p + 2], blk[p + 3]);
    w[1] := Word(blk[p + 4], blk[p + 5], blk[p + 6], blk[p + 7]);
    w[2] := Word(blk[p + 8], blk[p + 9], blk[p + 10], blk[p + 11]);
    w[3] := Word(blk[p + 12], blk[p + 13], blk[p + 14], blk[p + 15]);
    assert w[..] == [w[0], w[1], w[2], w[3]];
  }

  /** b with the 16 bytes from p on replaced. */
  function Splice(b: seq<bv8>, p: nat, block: seq<bv8>): (out: seq<bv8>)
    requires p + 16 <= |b| && |block| == 16
    ensures |out| == |b|
  {
    b[..p] + block + b[p + 16..]
  }

  /** Four PUT32_BE in a row. */
  method StoreWords(blk: array<bv8>, p: int, w: seq<bv32>)
    requires 0 <= p && p + 16 <= blk.Length && |w| == 4
    modifies blk
    ensures blk[..] == Splice(old(blk[..]), p, BlockBytes(w))
  {
    var bytes := BlockBytes(w);
    hide BlockBytes;
    forall k | 0 <= k < 16 {
      blk[p + k] := bytes[k];
    }
  }

  /** One block of encryption: iv becomes the cipher block, which replaces the plain one. */
  method EncryptStep(ctx: Context, t: Tables, blk: array<bv8>, p: int, iv: array<bv32>, ghost key: seq<bv8>)
    requires ctx.Keyed(key) && t.Valid() && t.ready
    requires iv.Length == 4 && iv !in t.Arrays() && iv != ctx.keysched && iv != ctx.invkeysched
    requires 0 <= p && p + 16 <= blk.Length
    modifies blk, iv
    ensures iv[..] == EncBlock(key, XorBlock(old(iv[..]), BlockWords(old(blk[p..p + 16]))))
    ensures blk[..] == Splice(old(blk[..]), p, BlockBytes(iv[..]))
  {
    hide EncBlock, Word, Xor, BlockBytes, Splice, Context.Keyed, Tables.Valid;
    KeyedShape(ctx, key);
    ghost var w := BlockWords(blk[p..p + 16]);
    iv[0] := Xor(iv[0], Word(blk[p], blk[p + 1], blk[p + 2], blk[p + 3]));
    iv[1] := Xor(iv[1], Word(blk[p + 4], blk[p + 5], blk[p + 6], blk[p + 7]));
    iv[2] := Xor(iv[2], Word(blk[p + 8], blk[p + 9], blk[p + 10], blk[p + 11]));
    iv[3] := Xor(iv[3], Word(blk[p + 12], blk[p + 13], blk[p + 14], blk[p + 15]));
    assert iv[..] == XorBlock(old(iv[..]), w);
    ctx.EncryptBlock(t, iv, key);
    StoreWords(blk, p, iv[..]);
  }

  /** One block of decryption; iv becomes the cipher block just read. */
  method DecryptStep(ctx: Context, t: Tables, blk: array<bv8>, p: int, iv: array<bv32>, ghost key: seq<bv8>)
    requires ctx.Keyed(key) && t.Valid() && t.ready
    requires iv.Length == 4 && iv !in t.Arrays() && iv != ctx.keysched && iv != ctx.invkeysched
    requires 0 <= p && p + 16 <= blk.Length
    modifies blk, iv
    ensures iv[..] == BlockWords(old(blk[p..p + 16]))
    ensures blk[..] == Splice(old(blk[..]), p, BlockBytes(XorBlock(old(iv[..]), DecBlock(key, iv[..]))))
  {
    hide DecBlock, BlockWords, XorBlock, XorWords, BlockBytes, Splice, Context.Keyed, Tables.Valid;
    KeyedShape(ctx, key);
    var x, ct := new bv32[4], new bv32[4];
    LoadWords(blk, p, x);
    LoadWords(blk, p, ct);
    ctx.DecryptBlock(t, x, key);
    StoreWords(blk, p, XorWords(iv, x));
    iv[0], iv[1], iv[2], iv[3] := ct[0], ct[1], ct[2], ct[3];
    assert iv[..] == ct[..];
  }

  /** The exclusive or of two blocks of words. */
  function XorWords(x: array<bv32>, y: array<bv32>): (z: seq<bv32>)
    requires x.Length == 4 && y.Length == 4
    reads x, y
    ensures z == XorBlock(x[..], y[..])
  {
    hide Xor;
    [Xor(x[0], y[0]), Xor(x[1], y[1]), Xor(x[2], y[2]), Xor(x[3], y[3])]
  }

  lemma EncExtend(key: seq<bv8>, iv: seq<bv32>, rest: seq<bv8>, c: seq<bv32>)
    requires KeyLength(|key|) && |iv| == 4 && |rest| >= 16
    requires c == EncBlock(key, XorBlock(iv, BlockWords(rest[..16])))
    ensures CbcEnc(key, iv, rest) == BlockBytes(c) + CbcEnc(key, c, rest[16..])
    ensures ChainAfter(iv, CbcEnc(key, iv, rest)) == ChainAfter(c, CbcEnc(key, c, rest[16..]))
  {
    hide EncBlock, XorBlock, BlockWords, BlockBytes;
    var out := CbcEnc(key, iv, rest);
    assert out[..16] == BlockBytes(c) && out[16..] == CbcEnc(key, c, rest[16..]);
    WordsOfBytes(c);
  }

  /** Encrypts the whole blocks of blk[off..off + len] in place and leaves the chaining value. */
  method CbcEncrypt(ctx: Context, t: Tables, blk: array<bv8>, off: int, len: int, ghost key: seq<bv8>)
    requires ctx.Keyed(key) && t.Valid() && t.ready
    requires t.Arrays() !! {ctx.keysched, ctx.invkeysched, ctx.iv}
    requires 0 <= off && 0 <= len && off + len <= blk.Length
    modifies blk, ctx.iv
    ensures ctx.Keyed(key)
    ensures blk[off..off + len] == old(CbcEnc(key, ctx.iv[..], blk[off..off + len]))
    ensures ctx.iv[..] == ChainAfter(old(ctx.iv[..]), blk[off..off + len])
    ensures blk[..off] == old(blk[..off]) && blk[off + len..] == old(blk[off + len..])
  {
    hide CbcEnc, CbcDec, EncBlock, DecBlock, BlockWords, BlockBytes, XorBlock, ChainAfter, Parts, Splice,
      Context.Keyed, Tables.Valid, Tables.Shape;
    KeyedShape(ctx, key);
    var iv := new bv32[4] [ctx.iv[0], ctx.iv[1], ctx.iv[2], ctx.iv[3]];
    ghost var iv0, data := ctx.iv[..], blk[off..off + len];
    ghost var pre, done: seq<bv8>, rest, post := blk[..off], [], data, blk[off + len..];
    PartsOf(blk[..], off, len);
    assert iv[..] == iv0;
    var p := 0;
    while len - p >= 16
      invariant 0 <= p == |done| <= len && |rest| == len - p
      invariant blk[..] == Parts(pre, done, rest, post)
      invariant CbcEnc(key, iv0, data) == done + CbcEnc(key, iv[..], rest)
      invariant ChainAfter(iv0, CbcEnc(key, iv0, data)) == ChainAfter(iv[..], CbcEnc(key, iv[..], rest))
      invariant ctx.iv[..] == iv0 && ctx.Keyed(key)
    {
      ghost var before := iv[..];
      SpliceParts(pre, done, rest, post, rest[..16]);
      EncryptStep(ctx, t, blk, off + p, iv, key);
      ghost var block := BlockBytes(iv[..]);
      SpliceParts(pre, done, rest, post, block);
      EncExtend(key, before, rest, iv[..]);
      assert (done + block) + CbcEnc(key, iv[..], rest[16..]) == done + (block + CbcEnc(key, iv[..], rest[16..]));
      done, rest := done + block, rest[16..];
      p := p + 16;
    }
    CbcShort(key, iv[..], rest);
    PartsDone(blk[..], pre, done, rest, post);
    ctx.iv[0], ctx.iv[1], ctx.iv[2], ctx.iv[3] := iv[0], iv[1], iv[2], iv[3];
    assert ctx.iv[..] == iv[..];
  }

  /** A buffer in four parts: untouched, finished, remaining, untouched. */
  function Parts(pre: seq<bv8>, done: seq<bv8>, rest: seq<bv8>, post: seq<bv8>): seq<bv8>
  {
    pre + done + rest + post
  }

  lemma SpliceParts(pre: seq<bv8>, done: seq<bv8>, rest: seq<bv8>, post: seq<bv8>, block: seq<bv8>)
    requires |rest| >= 16 && |block| == 16
    ensures var b, p := Parts(pre, done, rest, post), |pre| + |done|;
      p + 16 <= |b| && b[p..p + 16] == rest[..16] &&
      Splice(b, p, block) == Parts(pre, done + block, rest[16..], post)
  {
  }

  lemma PartsOf(b: seq<bv8>, off: nat, len: nat)
    requires off + len <= |b|
    ensures b == Parts(b[..off], [], b[off..off + len], b[off + len..])
  {
  }

  lemma PartsDone(b: seq<bv8>, pre: seq<bv8>, done: seq<bv8>, rest: seq<bv8>, post: seq<bv8>)
    requires b == Parts(pre, done, rest, post)
    ensures b[|pre|..|pre| + |done + rest|] == done + rest
    ensures b[..|pre|] == pre && b[|pre| + |done + rest|..] == post
  {
  }

  lemma KeyedShape(ctx: Context, key: seq<bv8>)
    requires ctx.Keyed(key)
    ensures ctx.Shape() && KeyLength(|key|)
  {
  }

  lemma CbcShort(key: seq<bv8>, iv: seq<bv32>, rest: seq<bv8>)
    requires KeyLength(|key|) && |iv| == 4 && |rest| < 16
    ensures CbcEnc(key, iv, rest) == rest == CbcDec(key, iv, rest)
    ensures ChainAfter(iv, rest) == iv
  {
  }

  lemma DecExtend(key: seq<bv8>, iv: seq<bv32>, rest: seq<bv8>, c: seq<bv32>)
    requires KeyLength(|key|) && |iv| == 4 && |rest| >= 16
    requires c == BlockWords(rest[..16])
    ensures CbcDec(key, iv, rest) == BlockBytes(XorBlock(iv, DecBlock(key, c))) + CbcDec(key, c, rest[16..])
    ensures ChainAfter(iv, rest) == ChainAfter(c, rest[16..])
  {
  }

  /** Decrypts the whole blocks of blk[off..off + len] in place and leaves the chaining value. */
  method CbcDecrypt(ctx: Context, t: Tables, blk: array<bv8>, off: int, len: int, ghost key: seq<bv8>)
    requires ctx.Keyed(key) && t.Valid() && t.ready
    requires t.Arrays() !! {ctx.keysched, ctx.invkeysched, ctx.iv}
    requires 0 <= off && 0 <= len && off + len <= blk.Length
    modifies blk, ctx.iv
    ensures ctx.Keyed(key)
    ensures blk[off..off + len] == old(CbcDec(key, ctx.iv[..], blk[off..off + len]))
    ensures ctx.iv[..] == old(ChainAfter(ctx.iv[..], blk[off..off + len]))
    ensures blk[..off] == old(blk[..off]) && blk[off + len..] == old(blk[off + len..])
  {
    hide CbcEnc, CbcDec, EncBlock, DecBlock, BlockWords, BlockBytes, XorBlock, ChainAfter, Parts, Splice,
      Context.Keyed, Tables.Valid, Tables.Shape;
    KeyedShape(ctx, key);
    var iv := new bv32[4] [ctx.iv[0], ctx.iv[1], ctx.iv[2], ctx.iv[3]];
    ghost var iv0, data := ctx.iv[..], blk[off..off + len];
    ghost var pre, done: seq<bv8>, rest, post := blk[..off], [], data, blk[off + len..];
    PartsOf(blk[..], off, len);
    assert iv[..] == iv0;
    var p := 0;
    while len - p >= 16
      invariant 0 <= p == |done| <= len && |rest| == len - p
      invariant blk[..] == Parts(pre, done, rest, post)
      invariant CbcDec(key, iv0, data) == done + CbcDec(key, iv[..], rest)
      invariant ChainAfter(iv0, data) == ChainAfter(iv[..], rest)
      invariant ctx.iv[..] == iv0 && ctx.Keyed(key)
    {
      ghost var before := iv[..];
      SpliceParts(pre, done, rest, post, rest[..16]);
      DecryptStep(ctx, t, blk, off + p, iv, key);
      ghost var block := BlockBytes(XorBlock(before, DecBlock(key, iv[..])));
      SpliceParts(pre, done, rest, post, block);
      DecExtend(key, before, rest, iv[..]);
      assert (done + block) + CbcDec(key, iv[..], rest[16..]) == done + (block + CbcDec(key, iv[..], rest[16..]));
      done, rest := done + block, rest[16..];
      p := p + 16;
    }
    CbcShort(key, iv[..], rest);
    PartsDone(blk[..], pre, done, rest, post);
    ctx.iv[0], ctx.iv[1], ctx.iv[2], ctx.iv[3] := iv[0], iv[1], iv[2], iv[3];
    assert ctx.iv[..] == iv[..];
  }

  /** aes_set_iv: loads the chaining value from the 16 bytes at p. */
  method SetIv(ctx: Context, src: array<bv8>, p: int)
    requires ctx.Shape() && 0 <= p && p + 16 <= src.Length
    modifies ctx.iv
    ensures ctx.iv[..] == BlockWords(src[p..p + 16])
  {
    LoadWords(src, p, ctx.iv);
  }
}
