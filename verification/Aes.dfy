/**
 AES as the TLS client computes it: 32-bit words, eight lookup tables that merge the byte
 substitution with the column mixing, and a second key schedule for decryption. Each routine
 is proved against the byte-level cipher of AesCipher.
 */
module Aes {
  import opened Gf256
  import opened Sbox
  import opened AesCipher

  // ---- Words ----

  /** `^` on words, wrapped so that proofs can use its laws without looking at bits. */
  function Xor(x: bv32, y: bv32): bv32
  {
    x ^ y
  }

  function Xor5(a: bv32, b: bv32, c: bv32, d: bv32, e: bv32): bv32
  {
    Xor(Xor(Xor(Xor(a, b), c), d), e)
  }

  function Word(a: bv8, b: bv8, c: bv8, d: bv8): bv32
  {
    ((a as bv32) << 24) | ((b as bv32) << 16) | ((c as bv32) << 8) | (d as bv32)
  }

  function Byte3(w: bv32): bv8
  {
    ((w >> 24) & 0xFF) as bv8
  }

  function Byte2(w: bv32): bv8
  {
    ((w >> 16) & 0xFF) as bv8
  }

  function Byte1(w: bv32): bv8
  {
    ((w >> 8) & 0xFF) as bv8
  }

  function Byte0(w: bv32): bv8
  {
    (w & 0xFF) as bv8
  }

  function Unpack(w: bv32): Col
  {
    Col(Byte3(w), Byte2(w), Byte1(w), Byte0(w))
  }

  function Pack(c: Col): bv32
  {
    Word(c.a, c.b, c.c, c.d)
  }

  lemma UnpackWord(a: bv8, b: bv8, c: bv8, d: bv8)
    ensures Unpack(Word(a, b, c, d)) == Col(a, b, c, d)
  {
  }

  lemma PackUnpack(w: bv32)
    ensures Pack(Unpack(w)) == w
  {
  }

  lemma UnpackXor(x: bv32, y: bv32)
    ensures Unpack(Xor(x, y)) == ColAdd(Unpack(x), Unpack(y))
  {
  }

  lemma UnpackXor5(a: bv32, b: bv32, c: bv32, d: bv32, e: bv32)
    ensures Unpack(Xor5(a, b, c, d, e))
         == ColAdd(ColAdd(ColAdd(ColAdd(Unpack(a), Unpack(b)), Unpack(c)), Unpack(d)), Unpack(e))
  {
    hide Xor, Unpack, ColAdd;
    UnpackXor(a, b);
    UnpackXor(Xor(a, b), c);
    UnpackXor(Xor(Xor(a, b), c), d);
    UnpackXor(Xor(Xor(Xor(a, b), c), d), e);
  }

  // ---- The tables ----

  function TE0(x: bv8): bv32
  {
    Word(Xtime(Sub(x)), Sub(x), Sub(x), Mul3(Sub(x)))
  }

  function TE1(x: bv8): bv32
  {
    Word(Mul3(Sub(x)), Xtime(Sub(x)), Sub(x), Sub(x))
  }

  function TE2(x: bv8): bv32
  {
    Word(Sub(x), Mul3(Sub(x)), Xtime(Sub(x)), Sub(x))
  }

  function TE3(x: bv8): bv32
  {
    Word(Sub(x), Sub(x), Mul3(Sub(x)), Xtime(Sub(x)))
  }

  function TD0(x: bv8): bv32
  {
    Word(MulE(InvSub(x)), Mul9(InvSub(x)), MulD(InvSub(x)), MulB(InvSub(x)))
  }

  function TD1(x: bv8): bv32
  {
    Word(MulB(InvSub(x)), MulE(InvSub(x)), Mul9(InvSub(x)), MulD(InvSub(x)))
  }

  function TD2(x: bv8): bv32
  {
    Word(MulD(InvSub(x)), MulB(InvSub(x)), MulE(InvSub(x)), Mul9(InvSub(x)))
  }

  function TD3(x: bv8): bv32
  {
    Word(Mul9(InvSub(x)), MulD(InvSub(x)), MulB(InvSub(x)), MulE(InvSub(x)))
  }

  /** Four table entries and a key word make one column of a full encryption round. */
  lemma EncColumn(x0: bv8, x1: bv8, x2: bv8, x3: bv8, k: bv32)
    ensures Unpack(Xor5(TE0(x0), TE1(x1), TE2(x2), TE3(x3), k))
         == ColAdd(ColMix(ColSub(Col(x0, x1, x2, x3))), Unpack(k))
  {
    hide Xor5, Unpack, Add, Xtime, Mul3, Sub, Word;
    UnpackXor5(TE0(x0), TE1(x1), TE2(x2), TE3(x3), k);
    UnpackWord(Xtime(Sub(x0)), Sub(x0), Sub(x0), Mul3(Sub(x0)));
    UnpackWord(Mul3(Sub(x1)), Xtime(Sub(x1)), Sub(x1), Sub(x1));
    UnpackWord(Sub(x2), Mul3(Sub(x2)), Xtime(Sub(x2)), Sub(x2));
    UnpackWord(Sub(x3), Sub(x3), Mul3(Sub(x3)), Xtime(Sub(x3)));
  }

  /** Four table entries and a key word make one column of a full decryption round. */
  lemma DecColumn(x0: bv8, x1: bv8, x2: bv8, x3: bv8, k: bv32)
    ensures Unpack(Xor5(TD0(x0), TD1(x1), TD2(x2), TD3(x3), k))
         == ColAdd(ColInvMix(ColInvSub(Col(x0, x1, x2, x3))), Unpack(k))
  {
    hide Xor5, Unpack, Add, Mul9, MulB, MulD, MulE, InvSub, Word;
    UnpackXor5(TD0(x0), TD1(x1), TD2(x2), TD3(x3), k);
    DecEntries(x0, x1, x2, x3);
  }

  lemma DecEntries(x0: bv8, x1: bv8, x2: bv8, x3: bv8)
    ensures Unpack(TD0(x0)) == (var s := InvSub(x0); Col(MulE(s), Mul9(s), MulD(s), MulB(s)))
    ensures Unpack(TD1(x1)) == (var s := InvSub(x1); Col(MulB(s), MulE(s), Mul9(s), MulD(s)))
    ensures Unpack(TD2(x2)) == (var s := InvSub(x2); Col(MulD(s), MulB(s), MulE(s), Mul9(s)))
    ensures Unpack(TD3(x3)) == (var s := InvSub(x3); Col(Mul9(s), MulD(s), MulB(s), MulE(s)))
  {
    hide Unpack, Mul9, MulB, MulD, MulE, InvSub, Word;
    UnpackWord(MulE(InvSub(x0)), Mul9(InvSub(x0)), MulD(InvSub(x0)), MulB(InvSub(x0)));
    UnpackWord(MulB(InvSub(x1)), MulE(InvSub(x1)), Mul9(InvSub(x1)), MulD(InvSub(x1)));
    UnpackWord(MulD(InvSub(x2)), MulB(InvSub(x2)), MulE(InvSub(x2)), Mul9(InvSub(x2)));
    UnpackWord(Mul9(InvSub(x3)), MulD(InvSub(x3)), MulB(InvSub(x3)), MulE(InvSub(x3)));
  }

  /** A key word sent through the substitution box and then the decryption tables is mixed
      by the inverse matrix: the two substitutions cancel. */
  lemma InvKeyWord(w: bv32)
    ensures Unpack(Xor(Xor(Xor(TD0(Sub(Byte3(w))), TD1(Sub(Byte2(w)))), TD2(Sub(Byte1(w)))), TD3(Sub(Byte0(w)))))
         == ColInvMix(Unpack(w))
  {
    hide Xor, Add, Mul9, MulB, MulD, MulE, InvSub, Sub, Word, Byte0, Byte1, Byte2, Byte3, Unpack;
    var b3, b2, b1, b0 := Byte3(w), Byte2(w), Byte1(w), Byte0(w);
    SubInverse(b3);
    SubInverse(b2);
    SubInverse(b1);
    SubInverse(b0);
    DecEntries(Sub(b3), Sub(b2), Sub(b1), Sub(b0));
    var t0, t1, t2, t3 := TD0(Sub(b3)), TD1(Sub(b2)), TD2(Sub(b1)), TD3(Sub(b0));
    UnpackXor(t0, t1);
    UnpackXor(Xor(t0, t1), t2);
    UnpackXor(Xor(Xor(t0, t1), t2), t3);
    UnpackDef(w);
  }

  lemma UnpackDef(w: bv32)
    ensures Unpack(w) == Col(Byte3(w), Byte2(w), Byte1(w), Byte0(w))
  {
  }

  /** Table index k as a byte. */
  function ByteAt(k: int): bv8
    requires 0 <= k < 256
  {
    k as bv8
  }

  lemma IndexOf(x: bv8)
    ensures 0 <= x as int < 256 && ByteAt(x as int) == x
  {
  }

  /** The static tables, computed when the first key is set up. */
  class Tables {
    const E0: array<bv32>
    const E1: array<bv32>
    const E2: array<bv32>
    const E3: array<bv32>
    const D0: array<bv32>
    const D1: array<bv32>
    const D2: array<bv32>
    const D3: array<bv32>
    var ready: bool

    ghost predicate Shape()
    {
      E0.Length == E1.Length == E2.Length == E3.Length == 256 &&
      D0.Length == D1.Length == D2.Length == D3.Length == 256 &&
      E0 != E1 && E0 != E2 && E0 != E3 && E1 != E2 && E1 != E3 && E2 != E3 &&
      D0 != D1 && D0 != D2 && D0 != D3 && D1 != D2 && D1 != D3 && D2 != D3 &&
      {E0, E1, E2, E3} !! {D0, D1, D2, D3}
    }

    ghost function Arrays(): set<array<bv32>>
    {
      {E0, E1, E2, E3, D0, D1, D2, D3}
    }

    ghost predicate EncFilled(n: int)
      requires Shape()
      reads E0, E1, E2, E3
    {
      forall k :: 0 <= k < n && k < 256 ==>
        var x := ByteAt(k); E0[k] == TE0(x) && E1[k] == TE1(x) && E2[k] == TE2(x) && E3[k] == TE3(x)
    }

    ghost predicate DecFilled(n: int)
      requires Shape()
      reads D0, D1, D2, D3
    {
      forall k :: 0 <= k < n && k < 256 ==>
        var x := ByteAt(k); D0[k] == TD0(x) && D1[k] == TD1(x) && D2[k] == TD2(x) && D3[k] == TD3(x)
    }

    ghost predicate Valid()
      reads this, E0, E1, E2, E3, D0, D1, D2, D3
    {
      Shape() && (ready ==> EncFilled(256) && DecFilled(256))
    }

    constructor ()
      ensures Valid() && !ready && fresh(Arrays())
    {
      E0, E1, E2, E3 := new bv32[256], new bv32[256], new bv32[256], new bv32[256];
      D0, D1, D2, D3 := new bv32[256], new bv32[256], new bv32[256], new bv32[256];
      ready := false;
    }

    /** One word of a full encryption round. */
    function EncWord(x0: bv8, x1: bv8, x2: bv8, x3: bv8, k: bv32): (t: bv32)
      requires Shape() && EncFilled(256)
      reads E0, E1, E2, E3
      ensures Unpack(t) == ColAdd(ColMix(ColSub(Col(x0, x1, x2, x3))), Unpack(k))
    {
      hide Xor5, Unpack, ColAdd, ColMix, ColSub, TE0, TE1, TE2, TE3, ByteAt;
      IndexOf(x0);
      IndexOf(x1);
      IndexOf(x2);
      IndexOf(x3);
      EncColumn(x0, x1, x2, x3, k);
      Xor5(E0[x0 as int], E1[x1 as int], E2[x2 as int], E3[x3 as int], k)
    }

    /** One word of a full decryption round. */
    function DecWord(x0: bv8, x1: bv8, x2: bv8, x3: bv8, k: bv32): (t: bv32)
      requires Shape() && DecFilled(256)
      reads D0, D1, D2, D3
      ensures Unpack(t) == ColAdd(ColInvMix(ColInvSub(Col(x0, x1, x2, x3))), Unpack(k))
    {
      hide Xor5, Unpack, ColAdd, ColInvMix, ColInvSub, TD0, TD1, TD2, TD3, ByteAt;
      IndexOf(x0);
      IndexOf(x1);
      IndexOf(x2);
      IndexOf(x3);
      DecColumn(x0, x1, x2, x3, k);
      Xor5(D0[x0 as int], D1[x1 as int], D2[x2 as int], D3[x3 as int], k)
    }

    /** A key word through the substitution box and the decryption tables. */
    function InvKey(w: bv32): (t: bv32)
      requires Shape() && DecFilled(256)
      reads D0, D1, D2, D3
      ensures t == InvWord(w)
    {
      hide Xor, Pack, Unpack, Sub, ColInvMix, TD0, TD1, TD2, TD3, ByteAt, Byte0, Byte1, Byte2, Byte3;
      var b0, b1, b2, b3 := Sub(Byte3(w)), Sub(Byte2(w)), Sub(Byte1(w)), Sub(Byte0(w));
      IndexOf(b0);
      IndexOf(b1);
      IndexOf(b2);
      IndexOf(b3);
      InvKeyWord(w);
      var t := Xor(Xor(Xor(D0[b0 as int], D1[b1 as int]), D2[b2 as int]), D3[b3 as int]);
      PackUnpack(t);
      t
    }

    method FillEnc()
      requires Shape()
      modifies E0, E1, E2, E3
      ensures EncFilled(256)
    {
      hide Sub, Xtime, Add, Word, ByteAt;
      var i := 0;
      while i < 256
        invariant 0 <= i <= 256 && EncFilled(i)
      {
        var s := Sub(ByteAt(i));
        var s2 := Xtime(s);
        var s3 := Add(s2, s);
        E0[i] := Word(s2, s, s, s3);
        E1[i] := Word(s3, s2, s, s);
        E2[i] := Word(s, s3, s2, s);
        E3[i] := Word(s, s, s3, s2);
        i := i + 1;
      }
    }

    method FillDec()
      requires Shape()
      modifies D0, D1, D2, D3
      ensures DecFilled(256)
    {
      hide InvSub, Xtime, Add, Word, ByteAt;
      var i := 0;
      while i < 256
        invariant 0 <= i <= 256 && DecFilled(i)
      {
        var s := InvSub(ByteAt(i));
        var s2 := Xtime(s);
        var s4 := Xtime(s2);
        var s8 := Xtime(s4);
        var s9 := Add(s8, s);
        var sb := Add(Add(s8, s2), s);
        var sd := Add(Add(s8, s4), s);
        var se := Add(Add(s8, s4), s2);
        D0[i] := Word(se, s9, sd, sb);
        D1[i] := Word(sb, se, s9, sd);
        D2[i] := Word(sd, sb, se, s9);
        D3[i] := Word(s9, sd, sb, se);
        i := i + 1;
      }
    }

    method Build()
      requires Valid()
      modifies this, Arrays()
      ensures Valid() && ready
    {
      FillEnc();
      FillDec();
      ready := true;
    }
  }

  // ---- The key schedule ----

  predicate KeyLength(n: int)
  {
    n == 16 || n == 24 || n == 32
  }

  const RCON: seq<bv32> := [
    0x01000000, 0x02000000, 0x04000000, 0x08000000, 0x10000000,
    0x20000000, 0x40000000, 0x80000000, 0x1b000000, 0x36000000
  ]

  function Rcon(j: nat): bv32
  {
    if j < |RCON| then RCON[j] else 0
  }

  /** The S-box on the bytes of a word that is turned by one byte, as the code writes it. */
  function SubRot(w: bv32): bv32
  {
    Word(Sub(Byte2(w)), Sub(Byte1(w)), Sub(Byte0(w)), Sub(Byte3(w)))
  }

  function KeyWord(key: seq<bv8>, i: nat): bv32
    requires 4 * i + 3 < |key|
  {
    Word(key[4 * i], key[4 * i + 1], key[4 * i + 2], key[4 * i + 3])
  }

  /** Word i of the schedule the library builds; there are |key| + 28 of them. */
  function Sched(key: seq<bv8>, i: nat): bv32
    requires KeyLength(|key|) && i < |key| + 28
  {
    var nk := |key| / 4;
    if i < nk then KeyWord(key, i)
    else
      var temp := Sched(key, i - 1);
      Xor(Sched(key, i - nk), if i % nk == 0 then Xor(SubRot(temp), Rcon(i / nk - 1)) else temp)
  }

  lemma SchedNext(key: seq<bv8>, i: nat)
    requires KeyLength(|key|) && i < |key| + 28
    ensures var nk := |key| / 4;
      Sched(key, i) == if i < nk then KeyWord(key, i)
        else var temp := Sched(key, i - 1);
          Xor(Sched(key, i - nk), if i % nk == 0 then Xor(SubRot(temp), Rcon(i / nk - 1)) else temp)
  {
  }

  // ---- KeyExpansion of section 5.2 of FIPS 197 ----

  function RconByte(j: nat): bv8
  {
    if j == 0 then 1 else Xtime(RconByte(j - 1))
  }

  /** [a0, a1, a2, a3] becomes [a1, a2, a3, a0]. */
  function RotWord(w: bv32): bv32
  {
    (w << 8) | (w >> 24)
  }

  function SubWord(w: bv32): bv32
  {
    Pack(ColSub(Unpack(w)))
  }

  function KeyExpansion(key: seq<bv8>, i: nat): bv32
    requires KeyLength(|key|) && i < |key| + 28
  {
    var nk := |key| / 4;
    if i < nk then Pack(Col(key[4 * i], key[4 * i + 1], key[4 * i + 2], key[4 * i + 3]))
    else
      var temp := KeyExpansion(key, i - 1);
      Xor(KeyExpansion(key, i - nk),
          if i % nk == 0 then Xor(SubWord(RotWord(temp)), Pack(Col(RconByte(i / nk - 1), 0, 0, 0)))
          else if nk > 6 && i % nk == 4 then SubWord(temp)
          else temp)
  }

  lemma RotBytes(w: bv32)
    ensures Byte3(RotWord(w)) == Byte2(w) && Byte2(RotWord(w)) == Byte1(w)
    ensures Byte1(RotWord(w)) == Byte0(w) && Byte0(RotWord(w)) == Byte3(w)
  {
  }

  /** The code's byte expression is SubWord after RotWord. */
  lemma SubRotIs(w: bv32)
    ensures SubRot(w) == SubWord(RotWord(w))
  {
    RotBytes(w);
    hide Sub, Byte0, Byte1, Byte2, Byte3, RotWord, Word;
  }

  lemma RconTable(j: nat)
    requires j < 10
    ensures Rcon(j) == Pack(Col(RconByte(j), 0, 0, 0))
  {
    assert RconByte(0) == 0x01;
    assert RconByte(1) == 0x02;
    assert RconByte(2) == 0x04;
    assert RconByte(3) == 0x08;
    assert RconByte(4) == 0x10;
    assert RconByte(5) == 0x20;
    assert RconByte(6) == 0x40;
    assert RconByte(7) == 0x80;
    assert RconByte(8) == 0x1b;
    assert RconByte(9) == 0x36;
  }

  lemma RoundsBound(nk: nat, i: nat)
    requires nk == 4 || nk == 6 || nk == 8
    requires nk <= i < 4 * nk + 28
    ensures 1 <= i / nk <= 10
  {
  }

  lemma ExpansionNext(key: seq<bv8>, i: nat)
    requires KeyLength(|key|) && i < |key| + 28 && (|key| == 32 ==> i < 12)
    ensures var nk := |key| / 4;
      KeyExpansion(key, i) == if i < nk then KeyWord(key, i)
        else var temp := KeyExpansion(key, i - 1);
          Xor(KeyExpansion(key, i - nk), if i % nk == 0 then Xor(SubRot(temp), Rcon(i / nk - 1)) else temp)
  {
    hide Word, Xor, SubRot, SubWord, RotWord, RconByte, Rcon;
    var nk := |key| / 4;
    if i >= nk && i % nk == 0 {
      SubRotIs(KeyExpansion(key, i - 1));
      RoundsBound(nk, i);
      RconTable(i / nk - 1);
    }
  }

  lemma {:induction false} SchedIsKeyExpansion(key: seq<bv8>, i: nat)
    requires KeyLength(|key|) && i < |key| + 28 && (|key| == 32 ==> i < 12)
    ensures Sched(key, i) == KeyExpansion(key, i)
  {
    hide Xor, SubRot, Rcon, KeyWord, Sched, KeyExpansion;
    SchedNext(key, i);
    ExpansionNext(key, i);
    if i >= |key| / 4 {
      SchedIsKeyExpansion(key, i - 1);
      SchedIsKeyExpansion(key, i - |key| / 4);
    }
  }

  lemma SubMoves(x: bv8)
    ensures Sub(x) != x
  {
  }

  lemma SubWordMoves(w: bv32)
    ensures SubWord(w) != w
  {
    hide Sub, Word, Byte0, Byte1, Byte2, Byte3, Unpack;
    SubMoves(Byte3(w));
    UnpackDef(w);
    UnpackWord(Sub(Byte3(w)), Sub(Byte2(w)), Sub(Byte1(w)), Sub(Byte0(w)));
  }

  lemma XorCancel(x: bv32, y: bv32, z: bv32)
    requires Xor(x, y) == Xor(x, z)
    ensures y == z
  {
    assert x ^ (x ^ y) == x ^ (x ^ z);
  }

  /** The schedule is that of FIPS 197 exactly for 128- and 192-bit keys: with a 256-bit key
      word 12 always differs, as the library omits the extra SubWord. */
  lemma ScheduleExact(key: seq<bv8>)
    requires KeyLength(|key|)
    ensures (forall i :: 0 <= i < |key| + 28 ==> Sched(key, i) == KeyExpansion(key, i)) <==> |key| != 32
  {
    hide Word, Xor, SubRot, SubWord, RotWord, RconByte;
    if |key| != 32 {
      forall i | 0 <= i < |key| + 28 ensures Sched(key, i) == KeyExpansion(key, i) {
        SchedIsKeyExpansion(key, i);
      }
    } else {
      TwelfthWord(key, 12);
    }
  }

  lemma LastSub()
    ensures Sub(0x09) == 0x01 && Sub(0xcf) == 0x8a && Sub(0x4f) == 0x84 && Sub(0x3c) == 0xeb
  {
  }

  lemma LastBytes()
    ensures var w: bv32 := 0x09cf4f3c; Byte3(w) == 0x09 && Byte2(w) == 0xcf && Byte1(w) == 0x4f && Byte0(w) == 0x3c
  {
  }

  lemma LastTurned()
    ensures SubRot(0x09cf4f3c) == 0x8a84eb01
  {
    LastBytes();
    LastSub();
    hide Byte0, Byte1, Byte2, Byte3, Sub;
  }

  lemma FirstXor()
    ensures Xor(0x2b7e1516, Xor(0x8a84eb01, Rcon(0))) == 0xa0fafe17
  {
  }

  lemma KeyEnds(key: seq<bv8>)
    requires |key| == 16 && key[..4] == [0x2b, 0x7e, 0x15, 0x16] && key[12..] == [0x09, 0xcf, 0x4f, 0x3c]
    ensures KeyWord(key, 0) == 0x2b7e1516 && KeyWord(key, 3) == 0x09cf4f3c
  {
    assert key[0] == key[..4][0] && key[1] == key[..4][1] && key[2] == key[..4][2] && key[3] == key[..4][3];
    assert key[12] == key[12..][0] && key[13] == key[12..][1] && key[14] == key[12..][2] && key[15] == key[12..][3];
  }

  /** The first expanded word of the key in appendix A.1 of FIPS 197 depends on its outer words. */
  lemma FirstWord(key: seq<bv8>)
    requires |key| == 16 && key[..4] == [0x2b, 0x7e, 0x15, 0x16] && key[12..] == [0x09, 0xcf, 0x4f, 0x3c]
    ensures Sched(key, 4) == 0xa0fafe17
  {
    KeyEnds(key);
    LastTurned();
    FirstXor();
    hide Xor, SubRot, Rcon, KeyWord;
    SchedNext(key, 4);
    SchedNext(key, 3);
    SchedNext(key, 0);
  }

  lemma TwelfthWord(key: seq<bv8>, i: nat)
    requires |key| == 32 && i == 12
    ensures Sched(key, i) != KeyExpansion(key, i)
  {
    hide Word, Xor, SubRot, SubWord, RotWord, RconByte, Rcon, KeyWord;
    SchedIsKeyExpansion(key, i - 8);
    SchedIsKeyExpansion(key, i - 1);
    var temp := Sched(key, i - 1);
    SubWordMoves(temp);
    if Xor(Sched(key, i - 8), temp) == Xor(Sched(key, i - 8), SubWord(temp)) {
      XorCancel(Sched(key, i - 8), temp, SubWord(temp));
    }
  }

  /** A decryption key word: the inverse matrix applied, as the table detour computes it. */
  function InvWord(w: bv32): bv32
  {
    Pack(ColInvMix(Unpack(w)))
  }

  function InvSched(key: seq<bv8>, i: nat): bv32
    requires KeyLength(|key|) && i < |key| + 28
  {
    if 4 <= i < |key| + 24 then InvWord(Sched(key, i)) else Sched(key, i)
  }

  // ---- Blocks of four words ----

  function StateOf(b: seq<bv32>): State
    requires |b| == 4
  {
    State(Unpack(b[0]), Unpack(b[1]), Unpack(b[2]), Unpack(b[3]))
  }

  function Words(s: State): (b: seq<bv32>)
    ensures |b| == 4
  {
    [Pack(s.c0), Pack(s.c1), Pack(s.c2), Pack(s.c3)]
  }

  function RoundKey(key: seq<bv8>, r: nat): State
    requires KeyLength(|key|) && 4 * r + 3 < |key| + 28
  {
    State(Unpack(Sched(key, 4 * r)), Unpack(Sched(key, 4 * r + 1)),
          Unpack(Sched(key, 4 * r + 2)), Unpack(Sched(key, 4 * r + 3)))
  }

  function RoundKeys(key: seq<bv8>): (ks: seq<State>)
    requires KeyLength(|key|)
    ensures |ks| == |key| / 4 + 7
  {
    seq(|key| / 4 + 7, r requires 0 <= r < |key| / 4 + 7 => RoundKey(key, r))
  }

  function EncBlock(key: seq<bv8>, b: seq<bv32>): (c: seq<bv32>)
    requires KeyLength(|key|) && |b| == 4
    ensures |c| == 4
  {
    Words(Cipher(StateOf(b), RoundKeys(key)))
  }

  function DecBlock(key: seq<bv8>, b: seq<bv32>): (c: seq<bv32>)
    requires KeyLength(|key|) && |b| == 4
    ensures |c| == 4
  {
    Words(EqInvCipher(StateOf(b), InvKeys(RoundKeys(key))))
  }

  lemma WordsOfState(s: State)
    ensures StateOf(Words(s)) == s
  {
    hide Word, Unpack;
    UnpackWord(s.c0.a, s.c0.b, s.c0.c, s.c0.d);
    UnpackWord(s.c1.a, s.c1.b, s.c1.c, s.c1.d);
    UnpackWord(s.c2.a, s.c2.b, s.c2.c, s.c2.d);
    UnpackWord(s.c3.a, s.c3.b, s.c3.c, s.c3.d);
  }

  lemma StateOfWords(b: seq<bv32>)
    requires |b| == 4
    ensures Words(StateOf(b)) == b
  {
    hide Pack, Unpack;
    PackUnpack(b[0]);
    PackUnpack(b[1]);
    PackUnpack(b[2]);
    PackUnpack(b[3]);
  }

  /** For every key and every block, decryption gives the block back. */
  lemma BlockRoundTrip(key: seq<bv8>, b: seq<bv32>)
    requires KeyLength(|key|) && |b| == 4
    ensures DecBlock(key, EncBlock(key, b)) == b
  {
    hide StateOf, Words, Cipher, EqInvCipher, RoundKeys, InvKeys;
    WordsOfState(Cipher(StateOf(b), RoundKeys(key)));
    DecryptEncrypt(StateOf(b), RoundKeys(key));
    StateOfWords(b);
  }

  /** And encryption gives every decrypted block back, so each key is a permutation of the blocks. */
  lemma BlockRoundTripBack(key: seq<bv8>, b: seq<bv32>)
    requires KeyLength(|key|) && |b| == 4
    ensures EncBlock(key, DecBlock(key, b)) == b
  {
    hide StateOf, Words, Cipher, EqInvCipher, RoundKeys, InvKeys;
    WordsOfState(EqInvCipher(StateOf(b), InvKeys(RoundKeys(key))));
    EncryptDecrypt(StateOf(b), RoundKeys(key));
    StateOfWords(b);
  }

  /** The words the last decryption rounds use are the mixed encryption keys. */
  lemma InvRoundKey(key: seq<bv8>, r: nat)
    requires KeyLength(|key|) && r < |key| / 4 + 7
    ensures 4 * r + 3 < |key| + 28
    ensures InvKeys(RoundKeys(key))[r]
         == State(Unpack(InvSched(key, 4 * r)), Unpack(InvSched(key, 4 * r + 1)),
                  Unpack(InvSched(key, 4 * r + 2)), Unpack(InvSched(key, 4 * r + 3)))
  {
    hide Sched, Unpack, ColInvMix, Pack;
    InvWordUnpacked(Sched(key, 4 * r));
    InvWordUnpacked(Sched(key, 4 * r + 1));
    InvWordUnpacked(Sched(key, 4 * r + 2));
    InvWordUnpacked(Sched(key, 4 * r + 3));
  }

  lemma InvWordUnpacked(w: bv32)
    ensures Unpack(InvWord(w)) == ColInvMix(Unpack(w))
  {
    hide Word, Unpack, ColInvMix;
    var c := ColInvMix(Unpack(w));
    UnpackWord(c.a, c.b, c.c, c.d);
  }

  // ---- The cipher context ----

  class Context {
    const keysched: array<bv32>
    const invkeysched: array<bv32>
    const iv: array<bv32>
    var Nr: int

    ghost predicate Shape()
    {
      keysched.Length == invkeysched.Length == 60 && iv.Length == 4 &&
      keysched != invkeysched && keysched != iv && invkeysched != iv
    }

    /** The schedules and round count are those of key. */
    ghost predicate Keyed(key: seq<bv8>)
      reads this, keysched, invkeysched
    {
      Shape() && KeyLength(|key|) && Nr == |key| / 4 + 6 &&
      (forall i :: 0 <= i < |key| + 28 ==> keysched[i] == Sched(key, i)) &&
      (forall i :: 0 <= i < |key| + 28 ==> invkeysched[i] == InvSched(key, i))
    }

    constructor ()
      ensures Shape() && fresh(keysched) && fresh(invkeysched) && fresh(iv)
    {
      keysched := new bv32[60](_ => 0);
      invkeysched := new bv32[60](_ => 0);
      iv := new bv32[4](_ => 0);
      Nr := 0;
    }

    method ExpandKey(key: array<bv8>)
      requires Shape() && KeyLength(key.Length)
      modifies keysched
      ensures forall i :: 0 <= i < key.Length + 28 ==> keysched[i] == Sched(key[..], i)
    {
      hide Word, Xor, SubRot, Rcon, Sched;
      ghost var ks := key[..];
      var nk := key.Length / 4;
      var i := 0;
      while i < nk
        invariant 0 <= i <= nk
        invariant forall k :: 0 <= k < i ==> keysched[k] == Sched(ks, k)
      {
        SchedNext(ks, i);
        keysched[i] := Word(key[4 * i], key[4 * i + 1], key[4 * i + 2], key[4 * i + 3]);
        i := i + 1;
      }
      while i < key.Length + 28
        invariant nk <= i <= key.Length + 28
        invariant forall k :: 0 <= k < i ==> keysched[k] == Sched(ks, k)
      {
        SchedNext(ks, i);
        var temp := keysched[i - 1];
        if i % nk == 0 {
          temp := Xor(SubRot(temp), Rcon(i / nk - 1));
        }
        keysched[i] := Xor(keysched[i - nk], temp);
        i := i + 1;
      }
    }

    method InvertKey(t: Tables, ghost key: seq<bv8>)
      requires Shape() && KeyLength(|key|) && t.Shape() && t.DecFilled(256)
      requires t.Arrays() !! {keysched, invkeysched, iv}
      requires Nr == |key| / 4 + 6
      requires forall i :: 0 <= i < |key| + 28 ==> keysched[i] == Sched(key, i)
      modifies invkeysched
      ensures forall i :: 0 <= i < |key| + 28 ==> invkeysched[i] == InvSched(key, i)
    {
      hide Sched, InvWord, Tables.DecFilled, Tables.Shape;
      assert 4 * Nr == |key| + 24;
      var i := 0;
      while i < 4 * (Nr + 1)
        invariant 0 <= i <= 4 * (Nr + 1)
        invariant forall k :: 0 <= k < i ==> invkeysched[k] == Sched(key, k)
      {
        invkeysched[i] := keysched[i];
        i := i + 1;
      }
      i := 4;
      while i < 4 * Nr
        invariant 4 <= i <= 4 * Nr
        invariant forall k :: 0 <= k < i ==> invkeysched[k] == InvSched(key, k)
        invariant forall k :: i <= k < |key| + 28 ==> invkeysched[k] == Sched(key, k)
      {
        invkeysched[i] := t.InvKey(invkeysched[i]);
        i := i + 1;
      }
    }

    /** Builds both key schedules. */
    method Setup(t: Tables, key: array<bv8>)
      requires Shape() && KeyLength(key.Length) && t.Valid()
      requires t.Arrays() !! {keysched, invkeysched, iv}
      modifies this, keysched, invkeysched, t, t.Arrays()
      ensures t.Valid() && t.ready
      ensures Keyed(old(key[..]))
    {
      hide Sched, InvSched;
      if !t.ready {
        t.Build();
      }
      Nr := key.Length / 4 + 6;
      ExpandKey(key);
      InvertKey(t, key[..]);
    }

    /** The full rounds of encryption. */
    method EncryptRounds(t: Tables, a0: bv32, a1: bv32, a2: bv32, a3: bv32, ghost st: State, ghost key: seq<bv8>)
      returns (s0: bv32, s1: bv32, s2: bv32, s3: bv32)
      requires Keyed(key) && t.Valid() && t.ready
      requires State(Unpack(a0), Unpack(a1), Unpack(a2), Unpack(a3)) == EncRounds(st, RoundKeys(key), 0)
      ensures State(Unpack(s0), Unpack(s1), Unpack(s2), Unpack(s3)) == EncRounds(st, RoundKeys(key), Nr - 1)
    {
      hide Sched, Unpack, ColAdd, ColMix, ColSub, Tables.EncFilled, Tables.DecFilled, EncRounds,
        Byte0, Byte1, Byte2, Byte3, RoundKeys;
      s0, s1, s2, s3 := a0, a1, a2, a3;
      assert 4 * Nr == |key| + 24;
      var r := 1;
      while r < Nr
        invariant 1 <= r <= Nr
        invariant State(Unpack(s0), Unpack(s1), Unpack(s2), Unpack(s3)) == EncRounds(st, RoundKeys(key), r - 1)
      {
        var sched := 4 * r;
        var t0 := t.EncWord(Byte3(s0), Byte2(s1), Byte1(s2), Byte0(s3), keysched[sched]);
        var t1 := t.EncWord(Byte3(s1), Byte2(s2), Byte1(s3), Byte0(s0), keysched[sched + 1]);
        var t2 := t.EncWord(Byte3(s2), Byte2(s3), Byte1(s0), Byte0(s1), keysched[sched + 2]);
        var t3 := t.EncWord(Byte3(s3), Byte2(s0), Byte1(s1), Byte0(s2), keysched[sched + 3]);
        EncRound(s0, s1, s2, s3, t0, t1, t2, t3, st, key, r);
        s0, s1, s2, s3 := t0, t1, t2, t3;
        r := r + 1;
      }
    }

    /** Encrypts one block in place. */
    method EncryptBlock(t: Tables, block: array<bv32>, ghost key: seq<bv8>)
      requires Keyed(key) && t.Valid() && t.ready && block.Length == 4
      requires block !in t.Arrays() && block != keysched && block != invkeysched
      modifies block
      ensures block[..] == EncBlock(key, old(block[..]))
    {
      hide Sched, Unpack, Xor, Tables.EncFilled, Tables.DecFilled, EncRounds, RoundKeys, SubColumn, Words, Cipher;
      ghost var st := StateOf(block[..]);
      assert 4 * Nr == |key| + 24;
      var s0 := Xor(block[0], keysched[0]);
      var s1 := Xor(block[1], keysched[1]);
      var s2 := Xor(block[2], keysched[2]);
      var s3 := Xor(block[3], keysched[3]);
      FirstKey(block[0], block[1], block[2], block[3], key, 0);
      s0, s1, s2, s3 := EncryptRounds(t, s0, s1, s2, s3, st, key);
      var sched := 4 * Nr;
      var k0, k1, k2, k3 := keysched[sched], keysched[sched + 1], keysched[sched + 2], keysched[sched + 3];
      EncLast(s0, s1, s2, s3, k0, k1, k2, k3, st, key);
      block[0] := Xor(SubColumn(s0, s1, s2, s3), k0);
      block[1] := Xor(SubColumn(s1, s2, s3, s0), k1);
      block[2] := Xor(SubColumn(s2, s3, s0, s1), k2);
      block[3] := Xor(SubColumn(s3, s0, s1, s2), k3);
      assert block[..] == [block[0], block[1], block[2], block[3]];
    }

    /** The full rounds of decryption, last key first. */
    method DecryptRounds(t: Tables, a0: bv32, a1: bv32, a2: bv32, a3: bv32, ghost st: State, ghost key: seq<bv8>)
      returns (s0: bv32, s1: bv32, s2: bv32, s3: bv32)
      requires Keyed(key) && t.Valid() && t.ready
      requires State(Unpack(a0), Unpack(a1), Unpack(a2), Unpack(a3)) == DecRounds(st, InvKeys(RoundKeys(key)), Nr)
      ensures State(Unpack(s0), Unpack(s1), Unpack(s2), Unpack(s3)) == DecRounds(st, InvKeys(RoundKeys(key)), 1)
    {
      hide Sched, InvSched, Unpack, ColAdd, ColInvMix, ColInvSub, Tables.EncFilled, Tables.DecFilled, DecRounds,
        Byte0, Byte1, Byte2, Byte3, RoundKeys, InvKeys;
      s0, s1, s2, s3 := a0, a1, a2, a3;
      assert 4 * Nr == |key| + 24;
      var r := Nr - 1;
      while r > 0
        invariant 0 <= r <= Nr - 1
        invariant State(Unpack(s0), Unpack(s1), Unpack(s2), Unpack(s3)) == DecRounds(st, InvKeys(RoundKeys(key)), r + 1)
      {
        var sched := 4 * r;
        var t0 := t.DecWord(Byte3(s0), Byte2(s3), Byte1(s2), Byte0(s1), invkeysched[sched]);
        var t1 := t.DecWord(Byte3(s1), Byte2(s0), Byte1(s3), Byte0(s2), invkeysched[sched + 1]);
        var t2 := t.DecWord(Byte3(s2), Byte2(s1), Byte1(s0), Byte0(s3), invkeysched[sched + 2]);
        var t3 := t.DecWord(Byte3(s3), Byte2(s2), Byte1(s1), Byte0(s0), invkeysched[sched + 3]);
        DecRound(s0, s1, s2, s3, t0, t1, t2, t3, st, key, r);
        s0, s1, s2, s3 := t0, t1, t2, t3;
        r := r - 1;
      }
    }

    /** Decrypts one block in place. */
    method DecryptBlock(t: Tables, block: array<bv32>, ghost key: seq<bv8>)
      requires Keyed(key) && t.Valid() && t.ready && block.Length == 4
      requires block !in t.Arrays() && block != keysched && block != invkeysched
      modifies block
      ensures block[..] == DecBlock(key, old(block[..]))
    {
      hide Sched, InvSched, Unpack, Xor, Tables.EncFilled, Tables.DecFilled, DecRounds, RoundKeys, InvKeys,
        InvSubColumn, Words, EqInvCipher;
      ghost var st := StateOf(block[..]);
      assert 4 * Nr == |key| + 24;
      var sched := 4 * Nr;
      var s0 := Xor(block[0], invkeysched[sched]);
      var s1 := Xor(block[1], invkeysched[sched + 1]);
      var s2 := Xor(block[2], invkeysched[sched + 2]);
      var s3 := Xor(block[3], invkeysched[sched + 3]);
      LastInvKey(block[0], block[1], block[2], block[3], key);
      s0, s1, s2, s3 := DecryptRounds(t, s0, s1, s2, s3, st, key);
      var k0, k1, k2, k3 := invkeysched[0], invkeysched[1], invkeysched[2], invkeysched[3];
      DecLast(s0, s1, s2, s3, k0, k1, k2, k3, st, key);
      block[0] := Xor(InvSubColumn(s0, s3, s2, s1), k0);
      block[1] := Xor(InvSubColumn(s1, s0, s3, s2), k1);
      block[2] := Xor(InvSubColumn(s2, s1, s0, s3), k2);
      block[3] := Xor(InvSubColumn(s3, s2, s1, s0), k3);
      assert block[..] == [block[0], block[1], block[2], block[3]];
    }
  }

  /** One word of the last encryption round: substitution without mixing. */
  function SubColumn(x0: bv32, x1: bv32, x2: bv32, x3: bv32): bv32
  {
    Word(Sub(Byte3(x0)), Sub(Byte2(x1)), Sub(Byte1(x2)), Sub(Byte0(x3)))
  }

  function InvSubColumn(x0: bv32, x1: bv32, x2: bv32, x3: bv32): bv32
  {
    Word(InvSub(Byte3(x0)), InvSub(Byte2(x1)), InvSub(Byte1(x2)), InvSub(Byte0(x3)))
  }

  lemma SubColumnUnpacked(x0: bv32, x1: bv32, x2: bv32, x3: bv32)
    ensures Unpack(SubColumn(x0, x1, x2, x3)) == ColSub(Col(Byte3(x0), Byte2(x1), Byte1(x2), Byte0(x3)))
    ensures Unpack(InvSubColumn(x0, x1, x2, x3)) == ColInvSub(Col(Byte3(x0), Byte2(x1), Byte1(x2), Byte0(x3)))
  {
    hide Word, Unpack, Sub, InvSub, Byte0, Byte1, Byte2, Byte3;
    UnpackWord(Sub(Byte3(x0)), Sub(Byte2(x1)), Sub(Byte1(x2)), Sub(Byte0(x3)));
    UnpackWord(InvSub(Byte3(x0)), InvSub(Byte2(x1)), InvSub(Byte1(x2)), InvSub(Byte0(x3)));
  }

  lemma RoundKeyAt(key: seq<bv8>, r: nat)
    requires KeyLength(|key|) && r < |key| / 4 + 7
    ensures 4 * r + 3 < |key| + 28
    ensures RoundKeys(key)[r]
         == State(Unpack(Sched(key, 4 * r)), Unpack(Sched(key, 4 * r + 1)),
                  Unpack(Sched(key, 4 * r + 2)), Unpack(Sched(key, 4 * r + 3)))
  {
    hide Sched, Unpack;
  }

  lemma FirstKey(b0: bv32, b1: bv32, b2: bv32, b3: bv32, key: seq<bv8>, r: nat)
    requires KeyLength(|key|) && r == 0
    ensures State(Unpack(Xor(b0, Sched(key, r))), Unpack(Xor(b1, Sched(key, 1))),
                  Unpack(Xor(b2, Sched(key, 2))), Unpack(Xor(b3, Sched(key, 3))))
         == EncRounds(StateOf([b0, b1, b2, b3]), RoundKeys(key), 0)
  {
    hide Sched, Unpack, Xor, ColAdd, RoundKeys;
    RoundKeyAt(key, 0);
    UnpackXor(b0, Sched(key, 0));
    UnpackXor(b1, Sched(key, 1));
    UnpackXor(b2, Sched(key, 2));
    UnpackXor(b3, Sched(key, 3));
  }

  lemma EncRound(s0: bv32, s1: bv32, s2: bv32, s3: bv32, t0: bv32, t1: bv32, t2: bv32, t3: bv32,
                 st: State, key: seq<bv8>, r: nat)
    requires KeyLength(|key|) && 0 < r < |key| / 4 + 6
    requires State(Unpack(s0), Unpack(s1), Unpack(s2), Unpack(s3)) == EncRounds(st, RoundKeys(key), r - 1)
    requires 4 * r + 3 < |key| + 28
    requires Unpack(t0) == ColAdd(ColMix(ColSub(Col(Byte3(s0), Byte2(s1), Byte1(s2), Byte0(s3)))), Unpack(Sched(key, 4 * r)))
    requires Unpack(t1) == ColAdd(ColMix(ColSub(Col(Byte3(s1), Byte2(s2), Byte1(s3), Byte0(s0)))), Unpack(Sched(key, 4 * r + 1)))
    requires Unpack(t2) == ColAdd(ColMix(ColSub(Col(Byte3(s2), Byte2(s3), Byte1(s0), Byte0(s1)))), Unpack(Sched(key, 4 * r + 2)))
    requires Unpack(t3) == ColAdd(ColMix(ColSub(Col(Byte3(s3), Byte2(s0), Byte1(s1), Byte0(s2)))), Unpack(Sched(key, 4 * r + 3)))
    ensures State(Unpack(t0), Unpack(t1), Unpack(t2), Unpack(t3)) == EncRounds(st, RoundKeys(key), r)
  {
    hide Sched, Byte0, Byte1, Byte2, Byte3, ColAdd, ColMix, Sub, RoundKeys;
    RoundKeyAt(key, r);
  }

  lemma EncLast(s0: bv32, s1: bv32, s2: bv32, s3: bv32, k0: bv32, k1: bv32, k2: bv32, k3: bv32, st: State, key: seq<bv8>)
    requires KeyLength(|key|)
    requires State(Unpack(s0), Unpack(s1), Unpack(s2), Unpack(s3)) == EncRounds(st, RoundKeys(key), |key| / 4 + 5)
    requires k0 == Sched(key, |key| + 24) && k1 == Sched(key, |key| + 25)
    requires k2 == Sched(key, |key| + 26) && k3 == Sched(key, |key| + 27)
    ensures [Xor(SubColumn(s0, s1, s2, s3), k0), Xor(SubColumn(s1, s2, s3, s0), k1),
             Xor(SubColumn(s2, s3, s0, s1), k2), Xor(SubColumn(s3, s0, s1, s2), k3)]
         == Words(Cipher(st, RoundKeys(key)))
  {
    hide Sched, Unpack, RoundKeys, Xor, SubColumn, EncRounds, Words, SubBytes, ShiftRows, AddRoundKey;
    assert 4 * (|key| / 4 + 6) == |key| + 24;
    RoundKeyAt(key, |key| / 4 + 6);
    var e := EncRounds(st, RoundKeys(key), |key| / 4 + 5);
    var k := State(Unpack(k0), Unpack(k1), Unpack(k2), Unpack(k3));
    LastRound(s0, s1, s2, s3, k0, k1, k2, k3, e, k);
    OutputWords([Xor(SubColumn(s0, s1, s2, s3), k0), Xor(SubColumn(s1, s2, s3, s0), k1),
                 Xor(SubColumn(s2, s3, s0, s1), k2), Xor(SubColumn(s3, s0, s1, s2), k3)],
                AddRoundKey(ShiftRows(SubBytes(e)), k));
  }

  lemma LastRound(s0: bv32, s1: bv32, s2: bv32, s3: bv32, k0: bv32, k1: bv32, k2: bv32, k3: bv32, e: State, k: State)
    requires e == State(Unpack(s0), Unpack(s1), Unpack(s2), Unpack(s3))
    requires k == State(Unpack(k0), Unpack(k1), Unpack(k2), Unpack(k3))
    ensures State(Unpack(Xor(SubColumn(s0, s1, s2, s3), k0)), Unpack(Xor(SubColumn(s1, s2, s3, s0), k1)),
                  Unpack(Xor(SubColumn(s2, s3, s0, s1), k2)), Unpack(Xor(SubColumn(s3, s0, s1, s2), k3)))
         == AddRoundKey(ShiftRows(SubBytes(e)), k)
  {
    hide Byte0, Byte1, Byte2, Byte3, ColAdd, Sub, Xor, SubColumn;
    SubColumnUnpacked(s0, s1, s2, s3);
    SubColumnUnpacked(s1, s2, s3, s0);
    SubColumnUnpacked(s2, s3, s0, s1);
    SubColumnUnpacked(s3, s0, s1, s2);
    UnpackXor(SubColumn(s0, s1, s2, s3), k0);
    UnpackXor(SubColumn(s1, s2, s3, s0), k1);
    UnpackXor(SubColumn(s2, s3, s0, s1), k2);
    UnpackXor(SubColumn(s3, s0, s1, s2), k3);
  }

  lemma OutputWords(out: seq<bv32>, s: State)
    requires |out| == 4 && State(Unpack(out[0]), Unpack(out[1]), Unpack(out[2]), Unpack(out[3])) == s
    ensures out == Words(s)
  {
    hide Unpack, Pack;
    StateOfWords(out);
  }

  lemma LastInvKey(b0: bv32, b1: bv32, b2: bv32, b3: bv32, key: seq<bv8>)
    requires KeyLength(|key|)
    ensures State(Unpack(Xor(b0, InvSched(key, |key| + 24))), Unpack(Xor(b1, InvSched(key, |key| + 25))),
                  Unpack(Xor(b2, InvSched(key, |key| + 26))), Unpack(Xor(b3, InvSched(key, |key| + 27))))
         == DecRounds(StateOf([b0, b1, b2, b3]), InvKeys(RoundKeys(key)), |key| / 4 + 6)
  {
    hide InvSched, Unpack, Xor, ColAdd, RoundKeys, InvKeys;
    assert 4 * (|key| / 4 + 6) == |key| + 24;
    InvRoundKey(key, |key| / 4 + 6);
    UnpackXor(b0, InvSched(key, |key| + 24));
    UnpackXor(b1, InvSched(key, |key| + 25));
    UnpackXor(b2, InvSched(key, |key| + 26));
    UnpackXor(b3, InvSched(key, |key| + 27));
  }

  lemma DecRound(s0: bv32, s1: bv32, s2: bv32, s3: bv32, t0: bv32, t1: bv32, t2: bv32, t3: bv32,
                 st: State, key: seq<bv8>, r: nat)
    requires KeyLength(|key|) && 0 < r < |key| / 4 + 6 && 4 * r + 3 < |key| + 28
    requires State(Unpack(s0), Unpack(s1), Unpack(s2), Unpack(s3)) == DecRounds(st, InvKeys(RoundKeys(key)), r + 1)
    requires Unpack(t0) == ColAdd(ColInvMix(ColInvSub(Col(Byte3(s0), Byte2(s3), Byte1(s2), Byte0(s1)))), Unpack(InvSched(key, 4 * r)))
    requires Unpack(t1) == ColAdd(ColInvMix(ColInvSub(Col(Byte3(s1), Byte2(s0), Byte1(s3), Byte0(s2)))), Unpack(InvSched(key, 4 * r + 1)))
    requires Unpack(t2) == ColAdd(ColInvMix(ColInvSub(Col(Byte3(s2), Byte2(s1), Byte1(s0), Byte0(s3)))), Unpack(InvSched(key, 4 * r + 2)))
    requires Unpack(t3) == ColAdd(ColInvMix(ColInvSub(Col(Byte3(s3), Byte2(s2), Byte1(s1), Byte0(s0)))), Unpack(InvSched(key, 4 * r + 3)))
    ensures State(Unpack(t0), Unpack(t1), Unpack(t2), Unpack(t3)) == DecRounds(st, InvKeys(RoundKeys(key)), r)
  {
    hide InvSched, Byte0, Byte1, Byte2, Byte3, ColAdd, ColInvMix, InvSub, RoundKeys, InvKeys;
    InvRoundKey(key, r);
  }

  lemma DecLast(s0: bv32, s1: bv32, s2: bv32, s3: bv32, k0: bv32, k1: bv32, k2: bv32, k3: bv32, st: State, key: seq<bv8>)
    requires KeyLength(|key|)
    requires State(Unpack(s0), Unpack(s1), Unpack(s2), Unpack(s3)) == DecRounds(st, InvKeys(RoundKeys(key)), 1)
    requires k0 == InvSched(key, 0) && k1 == InvSched(key, 1) && k2 == InvSched(key, 2) && k3 == InvSched(key, 3)
    ensures [Xor(InvSubColumn(s0, s3, s2, s1), k0), Xor(InvSubColumn(s1, s0, s3, s2), k1),
             Xor(InvSubColumn(s2, s1, s0, s3), k2), Xor(InvSubColumn(s3, s2, s1, s0), k3)]
         == Words(EqInvCipher(st, InvKeys(RoundKeys(key))))
  {
    hide InvSched, Byte0, Byte1, Byte2, Byte3, ColAdd, InvSub, RoundKeys, InvKeys, Xor, InvSubColumn, DecRounds, Words, StateOf;
    InvRoundKey(key, 0);
    SubColumnUnpacked(s0, s3, s2, s1);
    SubColumnUnpacked(s1, s0, s3, s2);
    SubColumnUnpacked(s2, s1, s0, s3);
    SubColumnUnpacked(s3, s2, s1, s0);
    UnpackXor(InvSubColumn(s0, s3, s2, s1), k0);
    UnpackXor(InvSubColumn(s1, s0, s3, s2), k1);
    UnpackXor(InvSubColumn(s2, s1, s0, s3), k2);
    UnpackXor(InvSubColumn(s3, s2, s1, s0), k3);
    OutputWords([Xor(InvSubColumn(s0, s3, s2, s1), k0), Xor(InvSubColumn(s1, s0, s3, s2), k1),
                 Xor(InvSubColumn(s2, s1, s0, s3), k2), Xor(InvSubColumn(s3, s2, s1, s0), k3)],
                EqInvCipher(st, InvKeys(RoundKeys(key))));
  }
}
