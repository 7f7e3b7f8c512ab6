/**
 The compression functions of SHA-1 and SHA-256: the loops of the code over their local arrays,
 against the functions of sections 4.1, 6.1.2 and 6.2.2 of FIPS 180-4.
 */
module Compression {
  import opened Aes
  import opened AesCipher

  datatype Alg = SHA1 | SHA256

  /** Words of chaining value. */
  function Width(alg: Alg): nat
  {
    if alg == SHA1 then 5 else 8
  }

  /** Sections 5.3.1 and 5.3.3. */
  function Initial(alg: Alg): (h: seq<bv32>)
    ensures |h| == Width(alg)
  {
    if alg == SHA1 then
      [0x67452301, 0xefcdab89, 0x98badcfe, 0x10325476, 0xc3d2e1f0]
    else
      [0x6a09e667, 0xbb67ae85, 0x3c6ef372, 0xa54ff53a, 0x510e527f, 0x9b05688c, 0x1f83d9ab, 0x5be0cd19]
  }

  function Transform(alg: Alg, h: seq<bv32>, block: seq<bv8>): (h': seq<bv32>)
    requires |h| == Width(alg) && |block| == 64
    ensures |h'| == Width(alg)
  {
    if alg == SHA1 then Sums(h, Rounds1(h, block, 80)) else Sums(h, Rounds256(h, block, 64))
  }

  function Sums(h: seq<bv32>, v: seq<bv32>): (s: seq<bv32>)
    requires |h| == |v|
    ensures |s| == |h|
  {
    seq(|h|, i requires 0 <= i < |h| => Sum(h[i], v[i]))
  }

  // ---- Sections 3.2 and 4.1 ----

  /** Addition modulo 2^32. */
  function Sum(x: bv32, y: bv32): bv32
  {
    x + y
  }

  function Rotl(x: bv32, n: nat): bv32
    requires n < 32
  {
    x.RotateLeft(n)
  }

  function Rotr(x: bv32, n: nat): bv32
    requires n < 32
  {
    x.RotateRight(n)
  }

  function Xor3(x: bv32, y: bv32, z: bv32): bv32
  {
    x ^ y ^ z
  }

  function Xor4(w: bv32, x: bv32, y: bv32, z: bv32): bv32
  {
    w ^ x ^ y ^ z
  }

  lemma SumIs(x: bv32, y: bv32)
    ensures Sum(x, y) == x + y
  {
  }

  lemma XorsAre(w: bv32, x: bv32, y: bv32, z: bv32)
    ensures Xor3(x, y, z) == Xor(Xor(x, y), z) && Xor4(w, x, y, z) == Xor(Xor(Xor(w, x), y), z)
  {
  }

  function Ch(x: bv32, y: bv32, z: bv32): bv32
  {
    (x & y) ^ (!x & z)
  }

  function Maj(x: bv32, y: bv32, z: bv32): bv32
  {
    (x & y) ^ (x & z) ^ (y & z)
  }

  function BigSigma0(x: bv32): bv32
  {
    Xor3(Rotr(x, 2), Rotr(x, 13), Rotr(x, 22))
  }

  function BigSigma1(x: bv32): bv32
  {
    Xor3(Rotr(x, 6), Rotr(x, 11), Rotr(x, 25))
  }

  function Sigma0(x: bv32): bv32
  {
    Xor3(Rotr(x, 7), Rotr(x, 18), x >> 3)
  }

  function Sigma1(x: bv32): bv32
  {
    Xor3(Rotr(x, 17), Rotr(x, 19), x >> 10)
  }

  // ---- SHA-1 (section 6.1.2) ----

  function Schedule1(block: seq<bv8>, t: nat): bv32
    requires |block| == 64
  {
    if t < 16 then Word(block[4 * t], block[4 * t + 1], block[4 * t + 2], block[4 * t + 3])
    else Rotl(Xor4(Schedule1(block, t - 3), Schedule1(block, t - 8), Schedule1(block, t - 14), Schedule1(block, t - 16)), 1)
  }

  function F1(t: nat, x: bv32, y: bv32, z: bv32): bv32
  {
    if t < 20 then Ch(x, y, z) else if t < 40 then Xor3(x, y, z) else if t < 60 then Maj(x, y, z) else Xor3(x, y, z)
  }

  function K1(t: nat): bv32
  {
    if t < 20 then 0x5a827999 else if t < 40 then 0x6ed9eba1 else if t < 60 then 0x8f1bbcdc else 0xca62c1d6
  }

  function Round1(v: seq<bv32>, t: nat, w: bv32): (v': seq<bv32>)
    requires |v| == 5
    ensures |v'| == 5
  {
    [Sum(Sum(Sum(Sum(Rotl(v[0], 5), F1(t, v[1], v[2], v[3])), v[4]), w), K1(t)), v[0], Rotl(v[1], 30), v[2], v[3]]
  }

  /** The working variables after n rounds. */
  function Rounds1(h: seq<bv32>, block: seq<bv8>, n: nat): (v: seq<bv32>)
    requires |h| == 5 && |block| == 64
    ensures |v| == 5
  {
    if n == 0 then h else Round1(Rounds1(h, block, n - 1), n - 1, Schedule1(block, n - 1))
  }

  // ---- SHA-256 (section 6.2.2) ----

  function Pick<T>(i: nat, a: T, b: T, c: T, d: T, e: T, f: T, g: T, h: T): T
  {
    if i < 4 then (if i < 2 then (if i == 0 then a else b) else if i == 2 then c else d)
    else if i < 6 then (if i == 4 then e else f) else if i == 6 then g else h
  }

  /** Section 4.2.2. */
  function K256(t: nat): bv32
    requires t < 64
  {
    if t < 8 then Pick(t, 0x428a2f98, 0x71374491, 0xb5c0fbcf, 0xe9b5dba5, 0x3956c25b, 0x59f111f1, 0x923f82a4, 0xab1c5ed5)
    else if t < 16 then Pick(t - 8, 0xd807aa98, 0x12835b01, 0x243185be, 0x550c7dc3, 0x72be5d74, 0x80deb1fe, 0x9bdc06a7, 0xc19bf174)
    else if t < 24 then Pick(t - 16, 0xe49b69c1, 0xefbe4786, 0x0fc19dc6, 0x240ca1cc, 0x2de92c6f, 0x4a7484aa, 0x5cb0a9dc, 0x76f988da)
    else if t < 32 then Pick(t - 24, 0x983e5152, 0xa831c66d, 0xb00327c8, 0xbf597fc7, 0xc6e00bf3, 0xd5a79147, 0x06ca6351, 0x14292967)
    else if t < 40 then Pick(t - 32, 0x27b70a85, 0x2e1b2138, 0x4d2c6dfc, 0x53380d13, 0x650a7354, 0x766a0abb, 0x81c2c92e, 0x92722c85)
    else if t < 48 then Pick(t - 40, 0xa2bfe8a1, 0xa81a664b, 0xc24b8b70, 0xc76c51a3, 0xd192e819, 0xd6990624, 0xf40e3585, 0x106aa070)
    else if t < 56 then Pick(t - 48, 0x19a4c116, 0x1e376c08, 0x2748774c, 0x34b0bcb5, 0x391c0cb3, 0x4ed8aa4a, 0x5b9cca4f, 0x682e6ff3)
    else Pick(t - 56, 0x748f82ee, 0x78a5636f, 0x84c87814, 0x8cc70208, 0x90befffa, 0xa4506ceb, 0xbef9a3f7, 0xc67178f2)
  }

  function Schedule256(block: seq<bv8>, t: nat): bv32
    requires |block| == 64
  {
    if t < 16 then Word(block[4 * t], block[4 * t + 1], block[4 * t + 2], block[4 * t + 3])
    else
      Sum(Sum(Sum(Sigma1(Schedule256(block, t - 2)), Schedule256(block, t - 7)), Sigma0(Schedule256(block, t - 15))),
          Schedule256(block, t - 16))
  }

  function Round256(v: seq<bv32>, k: bv32, w: bv32): (v': seq<bv32>)
    requires |v| == 8
    ensures |v'| == 8
  {
    var t1 := Sum(Sum(Sum(Sum(v[7], BigSigma1(v[4])), Ch(v[4], v[5], v[6])), k), w);
    var t2 := Sum(BigSigma0(v[0]), Maj(v[0], v[1], v[2]));
    [Sum(t1, t2), v[0], v[1], v[2], Sum(v[3], t1), v[4], v[5], v[6]]
  }

  function Rounds256(h: seq<bv32>, block: seq<bv8>, n: nat): (v: seq<bv32>)
    requires |h| == 8 && |block| == 64 && n <= 64
    ensures |v| == 8
  {
    hide Round256, K256;
    if n == 0 then h else Round256(Rounds256(h, block, n - 1), K256(n - 1), Schedule256(block, n - 1))
  }

  // ---- The constants ----

  /** The first 64 primes. */
  function Prime(t: nat): nat
    requires t < 64
  {
    if t < 8 then Pick(t, 2, 3, 5, 7, 11, 13, 17, 19)
    else if t < 16 then Pick(t - 8, 23, 29, 31, 37, 41, 43, 47, 53)
    else if t < 24 then Pick(t - 16, 59, 61, 67, 71, 73, 79, 83, 89)
    else if t < 32 then Pick(t - 24, 97, 101, 103, 107, 109, 113, 127, 131)
    else if t < 40 then Pick(t - 32, 137, 139, 149, 151, 157, 163, 167, 173)
    else if t < 48 then Pick(t - 40, 179, 181, 191, 193, 197, 199, 211, 223)
    else if t < 56 then Pick(t - 48, 227, 229, 233, 239, 241, 251, 257, 263)
    else Pick(t - 56, 269, 271, 277, 281, 283, 293, 307, 311)
  }

  function Square(n: nat): nat
  {
    n * n
  }

  function Cube(n: nat): nat
  {
    n * n * n
  }

  /** k holds the first 32 bits of the fractional part of the cube root of p. */
  predicate CubeRootPart(k: bv32, p: nat)
  {
    var whole := if p < 8 then 1 else if p < 27 then 2 else if p < 64 then 3 else if p < 125 then 4 else if p < 216 then 5 else 6;
    var n := whole * 0x1_0000_0000 + k as nat;
    Cube(n) <= p * 0x1_0000_0000_0000_0000_0000_0000 < Cube(n + 1)
  }

  /** h holds the first 32 bits of the fractional part of the square root of p. */
  predicate SquareRootPart(h: bv32, p: nat)
  {
    var whole := if p < 4 then 1 else if p < 9 then 2 else if p < 16 then 3 else 4;
    var n := whole * 0x1_0000_0000 + h as nat;
    Square(n) <= p * 0x1_0000_0000_0000_0000 < Square(n + 1)
  }

  /** Section 4.2.2: the cube roots of the first 64 primes. */
  lemma CubeRoots(t: nat)
    requires t < 64
    ensures CubeRootPart(K256(t), Prime(t))
  {
    hide CubeRootPart, K256, Prime;
    if t < 16 {
      CubeRoots0(t);
    } else if t < 32 {
      CubeRoots1(t);
    } else if t < 48 {
      CubeRoots2(t);
    } else {
      CubeRoots3(t);
    }
  }

  lemma CubeRoots0(t: nat)
    requires 0 <= t < 16
    ensures CubeRootPart(K256(t), Prime(t))
  {
  }

  lemma CubeRoots1(t: nat)
    requires 16 <= t < 32
    ensures CubeRootPart(K256(t), Prime(t))
  {
  }

  lemma CubeRoots2(t: nat)
    requires 32 <= t < 48
    ensures CubeRootPart(K256(t), Prime(t))
  {
  }

  lemma CubeRoots3(t: nat)
    requires 48 <= t < 64
    ensures CubeRootPart(K256(t), Prime(t))
  {
  }

  /** Section 5.3.3: the square roots of the first eight primes. */
  lemma SquareRoots(i: nat)
    requires i < 8
    ensures SquareRootPart(Initial(SHA256)[i], Prime(i))
  {
    if i < 4 {
    }
  }

  /** SHA-1 takes 30 bits of the square roots of 2, 3, 5 and 10. */
  lemma SquareRoots1()
    ensures forall t :: 0 <= t < 20 ==> Square(K1(t) as nat) <= 2 * 0x1000_0000_0000_0000 < Square(K1(t) as nat + 1)
    ensures forall t :: 20 <= t < 40 ==> Square(K1(t) as nat) <= 3 * 0x1000_0000_0000_0000 < Square(K1(t) as nat + 1)
    ensures forall t :: 40 <= t < 60 ==> Square(K1(t) as nat) <= 5 * 0x1000_0000_0000_0000 < Square(K1(t) as nat + 1)
    ensures forall t :: 60 <= t < 80 ==> Square(K1(t) as nat) <= 10 * 0x1000_0000_0000_0000 < Square(K1(t) as nat + 1)
  {
  }

  /** Byte j of a chaining value, low-order byte of each word first. */
  function LittleByte(h: seq<bv32>, j: nat): bv8
    requires j < 4 * |h|
  {
    var w := h[j / 4];
    if j % 4 == 0 then Byte0(w) else if j % 4 == 1 then Byte1(w) else if j % 4 == 2 then Byte2(w) else Byte3(w)
  }

  /** Its chaining value counts the hexadecimal digits up, 01 23 to EF, and down, FE DC to 10, and
      then down by ones in both places, F0 E1 D2 C3. */
  lemma DigitPattern(j: nat)
    requires j < 20
    ensures LittleByte(Initial(SHA1), j) as int
         == if j < 8 then 0x01 + 0x22 * j else if j < 16 then 0xFE - 0x22 * (j - 8) else 0xF0 - 0x0F * (j - 16)
  {
    if j < 8 {
    } else if j < 16 {
    }
  }

  // ---- The code's macros ----

  function Rol(x: bv32, n: bv6): bv32
    requires n <= 32
  {
    (x << n) | (x >> (32 - n))
  }

  function Ror(x: bv32, n: bv6): bv32
    requires n <= 32
  {
    (x >> n) | (x << (32 - n))
  }

  function Ep0(x: bv32): bv32
  {
    Xor3(Ror(x, 2), Ror(x, 13), Ror(x, 22))
  }

  function Ep1(x: bv32): bv32
  {
    Xor3(Ror(x, 6), Ror(x, 11), Ror(x, 25))
  }

  function Sig0(x: bv32): bv32
  {
    Xor3(Ror(x, 7), Ror(x, 18), x >> 3)
  }

  function Sig1(x: bv32): bv32
  {
    Xor3(Ror(x, 17), Ror(x, 19), x >> 10)
  }

  lemma RolIs(x: bv32)
    ensures Rol(x, 1) == Rotl(x, 1) && Rol(x, 5) == Rotl(x, 5) && Rol(x, 30) == Rotl(x, 30)
  {
  }

  lemma RorIs(x: bv32)
    ensures Ror(x, 2) == Rotr(x, 2) && Ror(x, 13) == Rotr(x, 13) && Ror(x, 22) == Rotr(x, 22)
    ensures Ror(x, 6) == Rotr(x, 6) && Ror(x, 11) == Rotr(x, 11) && Ror(x, 25) == Rotr(x, 25)
    ensures Ror(x, 7) == Rotr(x, 7) && Ror(x, 18) == Rotr(x, 18)
    ensures Ror(x, 17) == Rotr(x, 17) && Ror(x, 19) == Rotr(x, 19)
  {
  }

  /** The code's sums of rotations are those of the standard. */
  lemma SigmasAre(x: bv32)
    ensures Ep0(x) == BigSigma0(x) && Ep1(x) == BigSigma1(x) && Sig0(x) == Sigma0(x) && Sig1(x) == Sigma1(x)
  {
    hide Ror, Rotr, Xor3;
    RorIs(x);
  }

  /** The functions of the four loops of SHA-1; the first and the third are written with "or". */
  function Choose(b: bv32, c: bv32, d: bv32): bv32
  {
    (b & c) | (d & !b)
  }

  function Majority(b: bv32, c: bv32, d: bv32): bv32
  {
    (b & c) | (b & d) | (c & d)
  }

  lemma ChooseRaw(x: bv32, y: bv32, z: bv32)
    ensures (x & y) | (z & !x) == (x & y) ^ (!x & z)
  {
  }

  lemma ChooseIs(x: bv32, y: bv32, z: bv32)
    ensures Choose(x, y, z) == Ch(x, y, z)
  {
    ChooseRaw(x, y, z);
  }

  lemma MajorityRaw(x: bv32, y: bv32, z: bv32)
    ensures (x & y) | (x & z) | (y & z) == (x & y) ^ (x & z) ^ (y & z)
  {
  }

  lemma MajorityIs(x: bv32, y: bv32, z: bv32)
    ensures Majority(x, y, z) == Maj(x, y, z)
  {
    MajorityRaw(x, y, z);
  }

  /** GET32_BE. */
  function Load(blk: seq<bv8>, t: nat): bv32
    requires 4 * t + 3 < |blk|
  {
    ((blk[4 * t] as bv32) << 24) | ((blk[4 * t + 1] as bv32) << 16) | ((blk[4 * t + 2] as bv32) << 8) | (blk[4 * t + 3] as bv32)
  }

  lemma LoadIs(blk: seq<bv8>, t: nat)
    requires 4 * t + 3 < |blk|
    ensures Load(blk, t) == Word(blk[4 * t], blk[4 * t + 1], blk[4 * t + 2], blk[4 * t + 3])
  {
  }

  /** The working variables are the words of v. */
  ghost predicate Are5(v: seq<bv32>, a: bv32, b: bv32, c: bv32, d: bv32, e: bv32)
  {
    |v| == 5 && v[0] == a && v[1] == b && v[2] == c && v[3] == d && v[4] == e
  }

  ghost predicate Are8(v: seq<bv32>, a: bv32, b: bv32, c: bv32, d: bv32, e: bv32, f: bv32, g: bv32, h: bv32)
  {
    |v| == 8 && v[0] == a && v[1] == b && v[2] == c && v[3] == d && v[4] == e && v[5] == f && v[6] == g && v[7] == h
  }

  // ---- sha1_transform ----

  ghost predicate Filled1(w: seq<bv32>, blk: seq<bv8>)
    requires |blk| == 64
  {
    |w| == 80 && forall t :: 0 <= t < 80 ==> w[t] == Schedule1(blk, t)
  }

  /** The message schedule. */
  method Expand1(blk: seq<bv8>) returns (r: seq<bv32>)
    requires |blk| == 64
    ensures Filled1(r, blk)
  {
    hide Rol, Rotl, Xor4, Load, Word, Schedule1;
    var w := new bv32[80];
    for t := 0 to 16
      invariant forall k :: 0 <= k < t ==> w[k] == Schedule1(blk, k)
    {
      w[t] := Load(blk, t);
      First1(blk, t);
    }
    for t := 16 to 80
      invariant forall k :: 0 <= k < t ==> w[k] == Schedule1(blk, k)
    {
      var tmp := Xor4(w[t - 3], w[t - 8], w[t - 14], w[t - 16]);
      w[t] := Rol(tmp, 1);
      RolIs(tmp);
      Next1(blk, t);
    }
    r := w[..];
  }

  lemma First1(blk: seq<bv8>, t: nat)
    requires |blk| == 64 && t < 16
    ensures Schedule1(blk, t) == Load(blk, t)
  {
    hide Load, Word;
    LoadIs(blk, t);
  }

  lemma Next1(blk: seq<bv8>, t: nat)
    requires |blk| == 64 && t >= 16
    ensures Schedule1(blk, t)
         == Rotl(Xor4(Schedule1(blk, t - 3), Schedule1(blk, t - 8), Schedule1(blk, t - 14), Schedule1(blk, t - 16)), 1)
  {
    hide Word, Rotl, Xor4;
  }

  lemma NoRounds1(h: seq<bv32>, blk: seq<bv8>)
    requires |h| == 5 && |blk| == 64
    ensures Rounds1(h, blk, 0) == h
  {
  }

  lemma OneMore1(h: seq<bv32>, blk: seq<bv8>, t: nat)
    requires |h| == 5 && |blk| == 64
    ensures Rounds1(h, blk, t + 1) == Round1(Rounds1(h, blk, t), t, Schedule1(blk, t))
  {
    hide Round1, Schedule1;
  }

  /** One turn of the round loops; f is the turn's function of b, c and d, and k its constant. */
  lemma Turn1(h: seq<bv32>, blk: seq<bv8>, t: nat, a: bv32, b: bv32, c: bv32, d: bv32, e: bv32, f: bv32, k: bv32)
    requires |h| == 5 && |blk| == 64 && Are5(Rounds1(h, blk, t), a, b, c, d, e) && f == F1(t, b, c, d) && k == K1(t)
    ensures Are5(Rounds1(h, blk, t + 1), Sum(Sum(Sum(Sum(Rol(a, 5), f), e), Schedule1(blk, t)), k), a, Rol(b, 30), c, d)
  {
    hide Rol, Rotl, F1, K1, Schedule1, Sum, Rounds1;
    RolIs(a);
    RolIs(b);
    OneMore1(h, blk, t);
  }

  /** What the loop of round t computes. */
  lemma LoopIs(t: nat, b: bv32, c: bv32, d: bv32)
    ensures t < 20 ==> F1(t, b, c, d) == Choose(b, c, d) && K1(t) == 0x5a827999
    ensures 20 <= t < 40 || 60 <= t ==> F1(t, b, c, d) == Xor3(b, c, d)
    ensures 20 <= t < 40 ==> K1(t) == 0x6ed9eba1
    ensures 40 <= t < 60 ==> F1(t, b, c, d) == Majority(b, c, d) && K1(t) == 0x8f1bbcdc
    ensures 60 <= t ==> K1(t) == 0xca62c1d6
  {
    hide Choose, Majority, Ch, Maj, Xor3;
    ChooseIs(b, c, d);
    MajorityIs(b, c, d);
  }

  /** The four round loops. */
  method RoundLoops1(digest: seq<bv32>, w: seq<bv32>, ghost blk: seq<bv8>)
    returns (a: bv32, b: bv32, c: bv32, d: bv32, e: bv32)
    requires |digest| == 5 && |blk| == 64 && Filled1(w, blk)
    ensures Are5(Rounds1(digest, blk, 80), a, b, c, d, e)
  {
    hide Rol, Schedule1, Rounds1, Choose, Xor3, Majority, F1, K1, Sum;
    a, b, c, d, e := digest[0], digest[1], digest[2], digest[3], digest[4];
    NoRounds1(digest, blk);
    for t := 0 to 20
      invariant Are5(Rounds1(digest, blk, t), a, b, c, d, e)
    {
      var tmp := Sum(Sum(Sum(Sum(Rol(a, 5), Choose(b, c, d)), e), w[t]), 0x5a827999);
      LoopIs(t, b, c, d);
      Turn1(digest, blk, t, a, b, c, d, e, Choose(b, c, d), 0x5a827999);
      e, d, c, b, a := d, c, Rol(b, 30), a, tmp;
    }
    for t := 20 to 40
      invariant Are5(Rounds1(digest, blk, t), a, b, c, d, e)
    {
      var tmp := Sum(Sum(Sum(Sum(Rol(a, 5), Xor3(b, c, d)), e), w[t]), 0x6ed9eba1);
      LoopIs(t, b, c, d);
      Turn1(digest, blk, t, a, b, c, d, e, Xor3(b, c, d), 0x6ed9eba1);
      e, d, c, b, a := d, c, Rol(b, 30), a, tmp;
    }
    for t := 40 to 60
      invariant Are5(Rounds1(digest, blk, t), a, b, c, d, e)
    {
      var tmp := Sum(Sum(Sum(Sum(Rol(a, 5), Majority(b, c, d)), e), w[t]), 0x8f1bbcdc);
      LoopIs(t, b, c, d);
      Turn1(digest, blk, t, a, b, c, d, e, Majority(b, c, d), 0x8f1bbcdc);
      e, d, c, b, a := d, c, Rol(b, 30), a, tmp;
    }
    for t := 60 to 80
      invariant Are5(Rounds1(digest, blk, t), a, b, c, d, e)
    {
      var tmp := Sum(Sum(Sum(Sum(Rol(a, 5), Xor3(b, c, d)), e), w[t]), 0xca62c1d6);
      LoopIs(t, b, c, d);
      Turn1(digest, blk, t, a, b, c, d, e, Xor3(b, c, d), 0xca62c1d6);
      e, d, c, b, a := d, c, Rol(b, 30), a, tmp;
    }
  }

  method Transform1(digest: seq<bv32>, blk: seq<bv8>) returns (r: seq<bv32>)
    requires |digest| == 5 && |blk| == 64
    ensures r == Transform(SHA1, digest, blk)
  {
    hide Schedule1, Rounds1, Sum, Filled1, Transform, Sums;
    var w := Expand1(blk);
    var a, b, c, d, e := RoundLoops1(digest, w, blk);
    r := [Sum(digest[0], a), Sum(digest[1], b), Sum(digest[2], c), Sum(digest[3], d), Sum(digest[4], e)];
    Added1(digest, blk, r, a, b, c, d, e);
  }

  lemma Added1(h: seq<bv32>, blk: seq<bv8>, r: seq<bv32>, a: bv32, b: bv32, c: bv32, d: bv32, e: bv32)
    requires |h| == 5 && |blk| == 64 && Are5(Rounds1(h, blk, 80), a, b, c, d, e)
    requires Are5(r, Sum(h[0], a), Sum(h[1], b), Sum(h[2], c), Sum(h[3], d), Sum(h[4], e))
    ensures r == Transform(SHA1, h, blk)
  {
    hide Rounds1, Rounds256, Sum, Sums;
    SumsAre(h, Rounds1(h, blk, 80), r);
  }

  lemma SumsAre(h: seq<bv32>, v: seq<bv32>, r: seq<bv32>)
    requires |h| == |v| == |r| && forall i :: 0 <= i < |h| ==> r[i] == Sum(h[i], v[i])
    ensures r == Sums(h, v)
  {
    hide Sum;
  }

  // ---- sha256_transform ----

  ghost predicate Filled256(w: seq<bv32>, data: seq<bv8>)
    requires |data| == 64
  {
    |w| == 64 && forall t :: 0 <= t < 64 ==> w[t] == Schedule256(data, t)
  }

  method Expand256(data: seq<bv8>) returns (r: seq<bv32>)
    requires |data| == 64
    ensures Filled256(r, data)
  {
    hide Load, Word, Schedule256, Sigma0, Sigma1, Sig0, Sig1, Sum;
    var w := new bv32[64];
    for i := 0 to 16
      invariant forall k :: 0 <= k < i ==> w[k] == Schedule256(data, k)
    {
      w[i] := Load(data, i);
      First256(data, i);
    }
    for i := 16 to 64
      invariant forall k :: 0 <= k < i ==> w[k] == Schedule256(data, k)
    {
      SigmasAre(w[i - 2]);
      SigmasAre(w[i - 15]);
      w[i] := Sum(Sum(Sum(Sig1(w[i - 2]), w[i - 7]), Sig0(w[i - 15])), w[i - 16]);
      Next256(data, i);
    }
    r := w[..];
  }

  lemma First256(blk: seq<bv8>, t: nat)
    requires |blk| == 64 && t < 16
    ensures Schedule256(blk, t) == Load(blk, t)
  {
    hide Load, Word;
    LoadIs(blk, t);
  }

  lemma Next256(blk: seq<bv8>, t: nat)
    requires |blk| == 64 && t >= 16
    ensures Schedule256(blk, t)
         == Sum(Sum(Sum(Sigma1(Schedule256(blk, t - 2)), Schedule256(blk, t - 7)), Sigma0(Schedule256(blk, t - 15))),
                Schedule256(blk, t - 16))
  {
    hide Word, Sigma0, Sigma1, Sum;
  }

  method Transform256(s: seq<bv32>, data: seq<bv8>) returns (r: seq<bv32>)
    requires |s| == 8 && |data| == 64
    ensures r == Transform(SHA256, s, data)
  {
    hide K256, Schedule256, Rounds256, Ep0, Ep1, BigSigma0, BigSigma1, Ch, Maj, Sum;
    var w := Expand256(data);
    var a, b, c, d, e, f, g, h := s[0], s[1], s[2], s[3], s[4], s[5], s[6], s[7];
    NoRounds256(s, data);
    for i := 0 to 64
      invariant Are8(Rounds256(s, data, i), a, b, c, d, e, f, g, h)
    {
      var t1 := Sum(Sum(Sum(Sum(h, Ep1(e)), Ch(e, f, g)), K256(i)), w[i]);
      var t2 := Sum(Ep0(a), Maj(a, b, c));
      Turn256(s, data, i, a, b, c, d, e, f, g, h, t1, t2);
      h, g, f, e := g, f, e, Sum(d, t1);
      d, c, b, a := c, b, a, Sum(t1, t2);
    }
    r := [Sum(s[0], a), Sum(s[1], b), Sum(s[2], c), Sum(s[3], d), Sum(s[4], e), Sum(s[5], f), Sum(s[6], g), Sum(s[7], h)];
  }

  lemma NoRounds256(h: seq<bv32>, blk: seq<bv8>)
    requires |h| == 8 && |blk| == 64
    ensures Rounds256(h, blk, 0) == h
  {
  }

  lemma OneMore256(h: seq<bv32>, blk: seq<bv8>, i: nat)
    requires |h| == 8 && |blk| == 64 && i < 64
    ensures Rounds256(h, blk, i + 1) == Round256(Rounds256(h, blk, i), K256(i), Schedule256(blk, i))
  {
    hide Round256, Schedule256, K256;
  }

  lemma Turn256(s: seq<bv32>, data: seq<bv8>, i: nat,
                a: bv32, b: bv32, c: bv32, d: bv32, e: bv32, f: bv32, g: bv32, h: bv32, t1: bv32, t2: bv32)
    requires |s| == 8 && |data| == 64 && i < 64 && Are8(Rounds256(s, data, i), a, b, c, d, e, f, g, h)
    requires t1 == Sum(Sum(Sum(Sum(h, Ep1(e)), Ch(e, f, g)), K256(i)), Schedule256(data, i))
    requires t2 == Sum(Ep0(a), Maj(a, b, c))
    ensures Are8(Rounds256(s, data, i + 1), Sum(t1, t2), a, b, c, Sum(d, t1), e, f, g)
  {
    hide Schedule256, K256, Ch, Maj, Sum, Ep0, Ep1, BigSigma0, BigSigma1, Rounds256;
    SigmasAre(e);
    SigmasAre(a);
    OneMore256(s, data, i);
  }

  method Compress(alg: Alg, h: seq<bv32>, block: seq<bv8>) returns (r: seq<bv32>)
    requires |h| == Width(alg) && |block| == 64
    ensures r == Transform(alg, h, block)
  {
    hide Transform;
    if alg == SHA1 {
      r := Transform1(h, block);
    } else {
      r := Transform256(h, block);
    }
  }
}
