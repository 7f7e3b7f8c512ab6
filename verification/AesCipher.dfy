/**
 The AES block cipher on bytes, as FIPS 197 defines it, and the equivalent inverse cipher.
 The main result is that the latter undoes the former under any round keys.
 */
module AesCipher {
  import opened Gf256
  import opened Sbox

  /** One column of the state, top byte first. */
  datatype Col = Col(a: bv8, b: bv8, c: bv8, d: bv8)

  datatype State = State(c0: Col, c1: Col, c2: Col, c3: Col)

  // ---- The four transformations (section 5.1) and their inverses (section 5.3) ----

  function ColAdd(x: Col, y: Col): Col
  {
    Col(Add(x.a, y.a), Add(x.b, y.b), Add(x.c, y.c), Add(x.d, y.d))
  }

  function ColSub(x: Col): Col
  {
    Col(Sub(x.a), Sub(x.b), Sub(x.c), Sub(x.d))
  }

  function ColInvSub(x: Col): Col
  {
    Col(InvSub(x.a), InvSub(x.b), InvSub(x.c), InvSub(x.d))
  }

  function ColMix(x: Col): Col
  {
    Col(Sum4(Xtime(x.a), Mul3(x.b), x.c, x.d),
        Sum4(x.a, Xtime(x.b), Mul3(x.c), x.d),
        Sum4(x.a, x.b, Xtime(x.c), Mul3(x.d)),
        Sum4(Mul3(x.a), x.b, x.c, Xtime(x.d)))
  }

  function ColInvMix(x: Col): Col
  {
    Col(Sum4(MulE(x.a), MulB(x.b), MulD(x.c), Mul9(x.d)),
        Sum4(Mul9(x.a), MulE(x.b), MulB(x.c), MulD(x.d)),
        Sum4(MulD(x.a), Mul9(x.b), MulE(x.c), MulB(x.d)),
        Sum4(MulB(x.a), MulD(x.b), Mul9(x.c), MulE(x.d)))
  }

  function AddRoundKey(s: State, k: State): State
  {
    State(ColAdd(s.c0, k.c0), ColAdd(s.c1, k.c1), ColAdd(s.c2, k.c2), ColAdd(s.c3, k.c3))
  }

  function SubBytes(s: State): State
  {
    State(ColSub(s.c0), ColSub(s.c1), ColSub(s.c2), ColSub(s.c3))
  }

  function InvSubBytes(s: State): State
  {
    State(ColInvSub(s.c0), ColInvSub(s.c1), ColInvSub(s.c2), ColInvSub(s.c3))
  }

  /** Row r moves left by r columns. */
  function ShiftRows(s: State): State
  {
    State(Col(s.c0.a, s.c1.b, s.c2.c, s.c3.d),
          Col(s.c1.a, s.c2.b, s.c3.c, s.c0.d),
          Col(s.c2.a, s.c3.b, s.c0.c, s.c1.d),
          Col(s.c3.a, s.c0.b, s.c1.c, s.c2.d))
  }

  function InvShiftRows(s: State): State
  {
    State(Col(s.c0.a, s.c3.b, s.c2.c, s.c1.d),
          Col(s.c1.a, s.c0.b, s.c3.c, s.c2.d),
          Col(s.c2.a, s.c1.b, s.c0.c, s.c3.d),
          Col(s.c3.a, s.c2.b, s.c1.c, s.c0.d))
  }

  function MixColumns(s: State): State
  {
    State(ColMix(s.c0), ColMix(s.c1), ColMix(s.c2), ColMix(s.c3))
  }

  function InvMixColumns(s: State): State
  {
    State(ColInvMix(s.c0), ColInvMix(s.c1), ColInvMix(s.c2), ColInvMix(s.c3))
  }

  // ---- The cipher and the equivalent inverse cipher ----

  /** The state after the first r full rounds. */
  function EncRounds(s: State, keys: seq<State>, r: nat): State
    requires r < |keys|
  {
    if r == 0 then AddRoundKey(s, keys[0])
    else AddRoundKey(MixColumns(ShiftRows(SubBytes(EncRounds(s, keys, r - 1)))), keys[r])
  }

  function Cipher(s: State, keys: seq<State>): State
    requires |keys| >= 2
  {
    var last := |keys| - 1;
    AddRoundKey(ShiftRows(SubBytes(EncRounds(s, keys, last - 1))), keys[last])
  }

  /** The state after the rounds that use decryption keys last - 1 down to r. */
  function DecRounds(s: State, keys: seq<State>, r: nat): State
    requires r < |keys|
    decreases |keys| - r
  {
    if r == |keys| - 1 then AddRoundKey(s, keys[r])
    else AddRoundKey(InvMixColumns(InvShiftRows(InvSubBytes(DecRounds(s, keys, r + 1)))), keys[r])
  }

  function EqInvCipher(s: State, keys: seq<State>): State
    requires |keys| >= 2
  {
    AddRoundKey(InvShiftRows(InvSubBytes(DecRounds(s, keys, 1))), keys[0])
  }

  /** The decryption keys of section 5.3.5: InvMixColumns applied to all but the outer two. */
  function InvKeys(keys: seq<State>): (ik: seq<State>)
    ensures |ik| == |keys|
  {
    seq(|keys|, r requires 0 <= r < |keys| =>
      if 0 < r < |keys| - 1 then InvMixColumns(keys[r]) else keys[r])
  }

  // ---- Inverses of the layers ----

  lemma ColAddCancel(x: Col, k: Col)
    ensures ColAdd(ColAdd(x, k), k) == x
  {
    hide Add;
    AddCancel(x.a, k.a);
    AddCancel(x.b, k.b);
    AddCancel(x.c, k.c);
    AddCancel(x.d, k.d);
  }

  lemma AddRoundKeyCancel(s: State, k: State)
    ensures AddRoundKey(AddRoundKey(s, k), k) == s
  {
    hide ColAdd;
    ColAddCancel(s.c0, k.c0);
    ColAddCancel(s.c1, k.c1);
    ColAddCancel(s.c2, k.c2);
    ColAddCancel(s.c3, k.c3);
  }

  lemma ColSubInverse(x: Col)
    ensures ColInvSub(ColSub(x)) == x
  {
    hide Sub, InvSub;
    SubInverse(x.a);
    SubInverse(x.b);
    SubInverse(x.c);
    SubInverse(x.d);
  }

  lemma ShiftSubInverse(s: State)
    ensures InvSubBytes(InvShiftRows(ShiftRows(SubBytes(s)))) == s
    ensures InvShiftRows(InvSubBytes(ShiftRows(SubBytes(s)))) == s
  {
    hide Sub, InvSub;
    ColSubInverse(s.c0);
    ColSubInverse(s.c1);
    ColSubInverse(s.c2);
    ColSubInverse(s.c3);
  }

  lemma ColMixAdd(x: Col, y: Col)
    ensures ColMix(ColAdd(x, y)) == ColAdd(ColMix(x), ColMix(y))
  {
    hide Add, Sum4, Xtime, Mul3;
    XtimeAdd(x.a, y.a);
    XtimeAdd(x.b, y.b);
    XtimeAdd(x.c, y.c);
    XtimeAdd(x.d, y.d);
    MultiplesAdd(x.a, y.a);
    MultiplesAdd(x.b, y.b);
    MultiplesAdd(x.c, y.c);
    MultiplesAdd(x.d, y.d);
    Sum4Add(Xtime(x.a), Mul3(x.b), x.c, x.d, Xtime(y.a), Mul3(y.b), y.c, y.d);
    Sum4Add(x.a, Xtime(x.b), Mul3(x.c), x.d, y.a, Xtime(y.b), Mul3(y.c), y.d);
    Sum4Add(x.a, x.b, Xtime(x.c), Mul3(x.d), y.a, y.b, Xtime(y.c), Mul3(y.d));
    Sum4Add(Mul3(x.a), x.b, x.c, Xtime(x.d), Mul3(y.a), y.b, y.c, Xtime(y.d));
  }

  lemma ColInvMixAdd(x: Col, y: Col)
    ensures ColInvMix(ColAdd(x, y)) == ColAdd(ColInvMix(x), ColInvMix(y))
  {
    hide Add, Sum4, Mul9, MulB, MulD, MulE;
    MultiplesAdd(x.a, y.a);
    MultiplesAdd(x.b, y.b);
    MultiplesAdd(x.c, y.c);
    MultiplesAdd(x.d, y.d);
    Sum4Add(MulE(x.a), MulB(x.b), MulD(x.c), Mul9(x.d), MulE(y.a), MulB(y.b), MulD(y.c), Mul9(y.d));
    Sum4Add(Mul9(x.a), MulE(x.b), MulB(x.c), MulD(x.d), Mul9(y.a), MulE(y.b), MulB(y.c), MulD(y.d));
    Sum4Add(MulD(x.a), Mul9(x.b), MulE(x.c), MulB(x.d), MulD(y.a), Mul9(y.b), MulE(y.c), MulB(y.d));
    Sum4Add(MulB(x.a), MulD(x.b), Mul9(x.c), MulE(x.d), MulB(y.a), MulD(y.b), Mul9(y.c), MulE(y.d));
  }

  /** The inverse matrix undoes the forward one: by linearity it is enough to follow each of
      the four bytes of the column on its own. */
  lemma ColMixInverse(x: Col)
    ensures ColInvMix(ColMix(x)) == x
  {
    hide Add, Sum4, Xtime, Mul3, Mul9, MulB, MulD, MulE, ColMix, ColInvMix;
    var a, b := Col(x.a, 0, 0, 0), Col(0, x.b, 0, 0);
    var c, d := Col(0, 0, x.c, 0), Col(0, 0, 0, x.d);
    var ab, cd := ColAdd(a, b), ColAdd(c, d);
    UnitColumns(x);
    ColMixAdd(a, b);
    ColInvMixAdd(ColMix(a), ColMix(b));
    ColMixAdd(c, d);
    ColInvMixAdd(ColMix(c), ColMix(d));
    ColMixAdd(ab, cd);
    ColInvMixAdd(ColMix(ab), ColMix(cd));
    MixUnitA(x.a);
    MixUnitB(x.b);
    MixUnitC(x.c);
    MixUnitD(x.d);
  }

  lemma UnitColumns(x: Col)
    ensures ColAdd(ColAdd(Col(x.a, 0, 0, 0), Col(0, x.b, 0, 0)), ColAdd(Col(0, 0, x.c, 0), Col(0, 0, 0, x.d))) == x
  {
    hide Add;
    AddZero(x.a);
    AddZero(x.b);
    AddZero(x.c);
    AddZero(x.d);
    AddZero(0);
  }

  lemma MultiplesOfZero()
    ensures Xtime(0) == 0 && Mul3(0) == 0
  {
  }

  lemma Sum4Unit(x: bv8)
    ensures Sum4(x, 0, 0, 0) == x && Sum4(0, x, 0, 0) == x && Sum4(0, 0, x, 0) == x && Sum4(0, 0, 0, x) == x
  {
    hide Add;
    AddZero(x);
    AddZero(0);
  }

  lemma Sum4Rotate(a: bv8, b: bv8, c: bv8, d: bv8)
    ensures Sum4(a, b, c, d) == Sum4(b, c, d, a)
  {
    hide Add;
    AddAssoc(a, b, c);
    AddAssoc(a, Add(b, c), d);
    AddComm(a, Add(Add(b, c), d));
  }

  lemma MixUnitA(x: bv8)
    ensures ColInvMix(ColMix(Col(x, 0, 0, 0))) == Col(x, 0, 0, 0)
  {
    hide Add, Sum4, Xtime, Mul3, Mul9, MulB, MulD, MulE;
    MultiplesOfZero();
    Sum4Unit(x);
    Sum4Unit(Xtime(x));
    Sum4Unit(Mul3(x));
    InverseRow0(x);
    InverseRow1(x);
    InverseRow2(x);
    InverseRow3(x);
  }

  lemma MixUnitB(x: bv8)
    ensures ColInvMix(ColMix(Col(0, x, 0, 0))) == Col(0, x, 0, 0)
  {
    hide Add, Sum4, Xtime, Mul3, Mul9, MulB, MulD, MulE;
    MultiplesOfZero();
    Sum4Unit(x);
    Sum4Unit(Xtime(x));
    Sum4Unit(Mul3(x));
    InverseRows(x);
    Sum4Rotate(MulE(Mul3(x)), MulB(Xtime(x)), MulD(x), Mul9(x));
    Sum4Rotate(Mul9(Mul3(x)), MulE(Xtime(x)), MulB(x), MulD(x));
    Sum4Rotate(MulD(Mul3(x)), Mul9(Xtime(x)), MulE(x), MulB(x));
    Sum4Rotate(MulB(Mul3(x)), MulD(Xtime(x)), Mul9(x), MulE(x));
  }

  lemma MixUnitC(x: bv8)
    ensures ColInvMix(ColMix(Col(0, 0, x, 0))) == Col(0, 0, x, 0)
  {
    hide Add, Sum4, Xtime, Mul3, Mul9, MulB, MulD, MulE;
    MultiplesOfZero();
    Sum4Unit(x);
    Sum4Unit(Xtime(x));
    Sum4Unit(Mul3(x));
    InverseRows(x);
    Sum4Rotate(MulE(x), MulB(Mul3(x)), MulD(Xtime(x)), Mul9(x));
    Sum4Rotate(MulB(Mul3(x)), MulD(Xtime(x)), Mul9(x), MulE(x));
    Sum4Rotate(Mul9(x), MulE(Mul3(x)), MulB(Xtime(x)), MulD(x));
    Sum4Rotate(MulE(Mul3(x)), MulB(Xtime(x)), MulD(x), Mul9(x));
    Sum4Rotate(MulD(x), Mul9(Mul3(x)), MulE(Xtime(x)), MulB(x));
    Sum4Rotate(Mul9(Mul3(x)), MulE(Xtime(x)), MulB(x), MulD(x));
    Sum4Rotate(MulB(x), MulD(Mul3(x)), Mul9(Xtime(x)), MulE(x));
    Sum4Rotate(MulD(Mul3(x)), Mul9(Xtime(x)), MulE(x), MulB(x));
  }

  lemma MixUnitD(x: bv8)
    ensures ColInvMix(ColMix(Col(0, 0, 0, x))) == Col(0, 0, 0, x)
  {
    hide Add, Sum4, Xtime, Mul3, Mul9, MulB, MulD, MulE;
    MultiplesOfZero();
    Sum4Unit(x);
    Sum4Unit(Xtime(x));
    Sum4Unit(Mul3(x));
    InverseRows(x);
    Sum4Rotate(Mul9(Xtime(x)), MulE(x), MulB(x), MulD(Mul3(x)));
    Sum4Rotate(MulD(Xtime(x)), Mul9(x), MulE(x), MulB(Mul3(x)));
    Sum4Rotate(MulB(Xtime(x)), MulD(x), Mul9(x), MulE(Mul3(x)));
    Sum4Rotate(MulE(Xtime(x)), MulB(x), MulD(x), Mul9(Mul3(x)));
  }

  lemma InverseRows(x: bv8)
    ensures Sum4(MulE(Xtime(x)), MulB(x), MulD(x), Mul9(Mul3(x))) == x
    ensures Sum4(Mul9(Xtime(x)), MulE(x), MulB(x), MulD(Mul3(x))) == 0
    ensures Sum4(MulD(Xtime(x)), Mul9(x), MulE(x), MulB(Mul3(x))) == 0
    ensures Sum4(MulB(Xtime(x)), MulD(x), Mul9(x), MulE(Mul3(x))) == 0
  {
    hide *;
    InverseRow0(x);
    InverseRow1(x);
    InverseRow2(x);
    InverseRow3(x);
  }

  lemma MixColumnsInverse(s: State)
    ensures InvMixColumns(MixColumns(s)) == s
  {
    hide ColMix, ColInvMix;
    ColMixInverse(s.c0);
    ColMixInverse(s.c1);
    ColMixInverse(s.c2);
    ColMixInverse(s.c3);
  }

  lemma InvMixColumnsAdd(s: State, k: State)
    ensures InvMixColumns(AddRoundKey(s, k)) == AddRoundKey(InvMixColumns(s), InvMixColumns(k))
  {
    hide ColInvMix, ColAdd;
    ColInvMixAdd(s.c0, k.c0);
    ColInvMixAdd(s.c1, k.c1);
    ColInvMixAdd(s.c2, k.c2);
    ColInvMixAdd(s.c3, k.c3);
  }

  // ---- The inverse matrix is undone by the forward one as well ----

  lemma ForwardRows(x: bv8)
    ensures Sum4(Xtime(MulE(x)), Mul3(Mul9(x)), MulD(x), MulB(x)) == x
    ensures Sum4(MulE(x), Xtime(Mul9(x)), Mul3(MulD(x)), MulB(x)) == 0
    ensures Sum4(MulE(x), Mul9(x), Xtime(MulD(x)), Mul3(MulB(x))) == 0
    ensures Sum4(Mul3(MulE(x)), Mul9(x), MulD(x), Xtime(MulB(x))) == 0
  {
    hide *;
    ForwardRow0(x);
    ForwardRow1(x);
    ForwardRow2(x);
    ForwardRow3(x);
  }

  lemma InvMultiplesOfZero()
    ensures Mul9(0) == 0 && MulB(0) == 0 && MulD(0) == 0 && MulE(0) == 0
  {
  }

  lemma InvMixUnitA(x: bv8)
    ensures ColMix(ColInvMix(Col(x, 0, 0, 0))) == Col(x, 0, 0, 0)
  {
    hide Add, Sum4, Xtime, Mul3, Mul9, MulB, MulD, MulE;
    InvMultiplesOfZero();
    Sum4Unit(MulE(x));
    Sum4Unit(Mul9(x));
    Sum4Unit(MulD(x));
    Sum4Unit(MulB(x));
    ForwardRows(x);
  }

  lemma InvMixUnitB(x: bv8)
    ensures ColMix(ColInvMix(Col(0, x, 0, 0))) == Col(0, x, 0, 0)
  {
    hide Add, Sum4, Xtime, Mul3, Mul9, MulB, MulD, MulE;
    InvMultiplesOfZero();
    Sum4Unit(MulE(x));
    Sum4Unit(Mul9(x));
    Sum4Unit(MulD(x));
    Sum4Unit(MulB(x));
    ForwardRows(x);
    Sum4Rotate(Xtime(MulB(x)), Mul3(MulE(x)), Mul9(x), MulD(x));
    Sum4Rotate(MulB(x), Xtime(MulE(x)), Mul3(Mul9(x)), MulD(x));
    Sum4Rotate(MulB(x), MulE(x), Xtime(Mul9(x)), Mul3(MulD(x)));
    Sum4Rotate(Mul3(MulB(x)), MulE(x), Mul9(x), Xtime(MulD(x)));
  }

  lemma InvMixUnitC(x: bv8)
    ensures ColMix(ColInvMix(Col(0, 0, x, 0))) == Col(0, 0, x, 0)
  {
    hide Add, Sum4, Xtime, Mul3, Mul9, MulB, MulD, MulE;
    InvMultiplesOfZero();
    Sum4Unit(MulE(x));
    Sum4Unit(Mul9(x));
    Sum4Unit(MulD(x));
    Sum4Unit(MulB(x));
    ForwardRows(x);
    Sum4Rotate(Xtime(MulD(x)), Mul3(MulB(x)), MulE(x), Mul9(x));
    Sum4Rotate(Mul3(MulB(x)), MulE(x), Mul9(x), Xtime(MulD(x)));
    Sum4Rotate(MulD(x), Xtime(MulB(x)), Mul3(MulE(x)), Mul9(x));
    Sum4Rotate(Xtime(MulB(x)), Mul3(MulE(x)), Mul9(x), MulD(x));
    Sum4Rotate(MulD(x), MulB(x), Xtime(MulE(x)), Mul3(Mul9(x)));
    Sum4Rotate(MulB(x), Xtime(MulE(x)), Mul3(Mul9(x)), MulD(x));
    Sum4Rotate(Mul3(MulD(x)), MulB(x), MulE(x), Xtime(Mul9(x)));
    Sum4Rotate(MulB(x), MulE(x), Xtime(Mul9(x)), Mul3(MulD(x)));
  }

  lemma InvMixUnitD(x: bv8)
    ensures ColMix(ColInvMix(Col(0, 0, 0, x))) == Col(0, 0, 0, x)
  {
    hide Add, Sum4, Xtime, Mul3, Mul9, MulB, MulD, MulE;
    InvMultiplesOfZero();
    Sum4Unit(MulE(x));
    Sum4Unit(Mul9(x));
    Sum4Unit(MulD(x));
    Sum4Unit(MulB(x));
    ForwardRows(x);
    Sum4Rotate(MulE(x), Xtime(Mul9(x)), Mul3(MulD(x)), MulB(x));
    Sum4Rotate(MulE(x), Mul9(x), Xtime(MulD(x)), Mul3(MulB(x)));
    Sum4Rotate(Mul3(MulE(x)), Mul9(x), MulD(x), Xtime(MulB(x)));
    Sum4Rotate(Xtime(MulE(x)), Mul3(Mul9(x)), MulD(x), MulB(x));
  }

  lemma ColInvMixInverse(x: Col)
    ensures ColMix(ColInvMix(x)) == x
  {
    hide Add, Sum4, Xtime, Mul3, Mul9, MulB, MulD, MulE, ColMix, ColInvMix;
    var a, b := Col(x.a, 0, 0, 0), Col(0, x.b, 0, 0);
    var c, d := Col(0, 0, x.c, 0), Col(0, 0, 0, x.d);
    var ab, cd := ColAdd(a, b), ColAdd(c, d);
    UnitColumns(x);
    ColInvMixAdd(a, b);
    ColMixAdd(ColInvMix(a), ColInvMix(b));
    ColInvMixAdd(c, d);
    ColMixAdd(ColInvMix(c), ColInvMix(d));
    ColInvMixAdd(ab, cd);
    ColMixAdd(ColInvMix(ab), ColInvMix(cd));
    InvMixUnitA(x.a);
    InvMixUnitB(x.b);
    InvMixUnitC(x.c);
    InvMixUnitD(x.d);
  }

  lemma InvMixColumnsInverse(s: State)
    ensures MixColumns(InvMixColumns(s)) == s
  {
    hide ColMix, ColInvMix;
    ColInvMixInverse(s.c0);
    ColInvMixInverse(s.c1);
    ColInvMixInverse(s.c2);
    ColInvMixInverse(s.c3);
  }

  lemma ColInvSubInverse(x: Col)
    ensures ColSub(ColInvSub(x)) == x
  {
    hide Sub, InvSub;
    InvSubInverse(x.a);
    InvSubInverse(x.b);
    InvSubInverse(x.c);
    InvSubInverse(x.d);
  }

  lemma InvShiftSubInverse(s: State)
    ensures ShiftRows(SubBytes(InvShiftRows(InvSubBytes(s)))) == s
  {
    hide Sub, InvSub;
    ColInvSubInverse(s.c0);
    ColInvSubInverse(s.c1);
    ColInvSubInverse(s.c2);
    ColInvSubInverse(s.c3);
  }

  // ---- Decryption undoes encryption ----

  /** After the rounds down to r the decryption state is the encryption state of round r - 1
      between its ShiftRows and its MixColumns. */
  lemma {:induction false} RoundsMeet(s: State, keys: seq<State>, r: nat)
    requires 1 <= r < |keys|
    ensures DecRounds(Cipher(s, keys), InvKeys(keys), r) == ShiftRows(SubBytes(EncRounds(s, keys, r - 1)))
    decreases |keys| - r
  {
    hide AddRoundKey, MixColumns, InvMixColumns, ShiftRows, InvShiftRows, SubBytes, InvSubBytes;
    var inner := ShiftRows(SubBytes(EncRounds(s, keys, r - 1)));
    if r == |keys| - 1 {
      AddRoundKeyCancel(inner, keys[r]);
    } else {
      RoundsMeet(s, keys, r + 1);
      var e := EncRounds(s, keys, r);
      assert e == AddRoundKey(MixColumns(inner), keys[r]);
      ShiftSubInverse(e);
      InvMixColumnsAdd(MixColumns(inner), keys[r]);
      MixColumnsInverse(inner);
      AddRoundKeyCancel(inner, InvMixColumns(keys[r]));
    }
  }

  /** The equivalent inverse cipher undoes the cipher, for any round keys. */
  lemma DecryptEncrypt(s: State, keys: seq<State>)
    requires |keys| >= 2
    ensures EqInvCipher(Cipher(s, keys), InvKeys(keys)) == s
  {
    hide AddRoundKey, MixColumns, InvMixColumns, ShiftRows, InvShiftRows, SubBytes, InvSubBytes;
    RoundsMeet(s, keys, 1);
    ShiftSubInverse(EncRounds(s, keys, 0));
    AddRoundKeyCancel(s, keys[0]);
  }

  // ---- Encryption undoes decryption ----

  /** On a decrypted state the encryption rounds go back through the decryption states. */
  lemma {:induction false} RoundsReturn(t: State, keys: seq<State>, r: nat)
    requires 1 <= r < |keys|
    ensures EncRounds(EqInvCipher(t, InvKeys(keys)), keys, r - 1) == InvShiftRows(InvSubBytes(DecRounds(t, InvKeys(keys), r)))
  {
    hide AddRoundKey, MixColumns, InvMixColumns, ShiftRows, InvShiftRows, SubBytes, InvSubBytes;
    var inner := InvShiftRows(InvSubBytes(DecRounds(t, InvKeys(keys), r)));
    if r == 1 {
      AddRoundKeyCancel(inner, keys[0]);
    } else {
      RoundsReturn(t, keys, r - 1);
      InvShiftSubInverse(DecRounds(t, InvKeys(keys), r - 1));
      InvMixColumnsInverse(inner);
      InvMixColumnsInverse(keys[r - 1]);
      MixColumnsAdd(InvMixColumns(inner), InvMixColumns(keys[r - 1]));
      AddRoundKeyCancel(inner, keys[r - 1]);
    }
  }

  lemma MixColumnsAdd(s: State, k: State)
    ensures MixColumns(AddRoundKey(s, k)) == AddRoundKey(MixColumns(s), MixColumns(k))
  {
    hide ColMix, ColAdd;
    ColMixAdd(s.c0, k.c0);
    ColMixAdd(s.c1, k.c1);
    ColMixAdd(s.c2, k.c2);
    ColMixAdd(s.c3, k.c3);
  }

  /** The cipher undoes the equivalent inverse cipher: every state is the cipher of just one. */
  lemma EncryptDecrypt(t: State, keys: seq<State>)
    requires |keys| >= 2
    ensures Cipher(EqInvCipher(t, InvKeys(keys)), keys) == t
  {
    hide AddRoundKey, MixColumns, InvMixColumns, ShiftRows, InvShiftRows, SubBytes, InvSubBytes;
    var last := |keys| - 1;
    RoundsReturn(t, keys, last);
    InvShiftSubInverse(DecRounds(t, InvKeys(keys), last));
    AddRoundKeyCancel(t, keys[last]);
  }
}
