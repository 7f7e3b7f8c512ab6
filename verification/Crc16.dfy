/** The checksum of the ZMODEM tests, table-driven, against polynomial division. */
module Crc16 {
  import opened Octets

  /** The remainder times x, modulo G = x^16 + x^12 + x^5 + 1. */
  function TimesX(r: bv16): bv16
  {
    (r << 1) ^ (if r & 0x8000 != 0 then 0x1021 else 0)
  }

  function TimesX8(r: bv16): bv16
  {
    TimesX(TimesX(TimesX(TimesX(TimesX(TimesX(TimesX(TimesX(r))))))))
  }

  function Plus(x: bv16, y: bv16): bv16
  {
    x ^ y
  }

  /** Bit k of a byte as a polynomial of degree 0. */
  function Bit(b: bv8, k: nat): bv16
    requires k < 8
  {
    if (b >> k) & 1 != 0 then 1 else 0
  }

  /** Long division brings down the eight bits of the next byte, highest first. */
  function DivideByte(r: bv16, b: bv8): bv16
  {
    var r7 := Plus(TimesX(r), Bit(b, 7));
    var r6 := Plus(TimesX(r7), Bit(b, 6));
    var r5 := Plus(TimesX(r6), Bit(b, 5));
    var r4 := Plus(TimesX(r5), Bit(b, 4));
    var r3 := Plus(TimesX(r4), Bit(b, 3));
    var r2 := Plus(TimesX(r3), Bit(b, 2));
    var r1 := Plus(TimesX(r2), Bit(b, 1));
    Plus(TimesX(r1), Bit(b, 0))
  }

  /** The remainder of a byte string, read as a polynomial with the first bit highest, by G. */
  function Remainder(s: seq<bv8>): bv16
  {
    if s == [] then 0 else DivideByte(Remainder(s[..|s| - 1]), s[|s| - 1])
  }

  /** A byte at the top of the register. */
  function Top(b: bv8): bv16
  {
    (b as bv16) << 8
  }

  /** The bit-by-bit table entry of zm_crc_init. */
  function TableEntry(i: bv8): bv16
  {
    TimesX8(Top(i))
  }

  /** The table index of zm_crc_upd. */
  function Index(crc: bv16, b: bv8): bv8
  {
    ((crc >> 8) as bv8) ^ b
  }

  /** zm_crc_upd. */
  function Update(crc: bv16, b: bv8): bv16
  {
    Plus(crc << 8, TableEntry(Index(crc, b)))
  }

  function UpdateAll(crc: bv16, s: seq<bv8>): bv16
  {
    if s == [] then crc else Update(UpdateAll(crc, s[..|s| - 1]), s[|s| - 1])
  }

  /** _crc16: over the data and two zero bytes. */
  function Crc(s: seq<bv8>): bv16
  {
    Update(Update(UpdateAll(0, s), 0), 0)
  }

  lemma Commute(x: bv16, y: bv16)
    ensures Plus(x, y) == Plus(y, x)
  {
  }

  lemma Assoc(x: bv16, y: bv16, z: bv16)
    ensures Plus(Plus(x, y), z) == Plus(x, Plus(y, z))
  {
  }

  lemma Shuffle(a: bv16, b: bv16, c: bv16, d: bv16)
    ensures Plus(Plus(a, b), Plus(c, d)) == Plus(Plus(a, c), Plus(b, d))
  {
    hide Plus;
    Assoc(a, b, Plus(c, d));
    Assoc(b, c, d);
    Commute(b, c);
    Assoc(c, b, d);
    Assoc(a, c, Plus(b, d));
  }

  lemma Left1(x: bv16, y: bv16)
    ensures Plus(x, y) << 1 == Plus(x << 1, y << 1)
  {
  }

  lemma Left5(x: bv16, y: bv16)
    ensures Plus(x, y) << 5 == Plus(x << 5, y << 5)
  {
  }

  lemma Left8(x: bv16, y: bv16)
    ensures Plus(x, y) << 8 == Plus(x << 8, y << 8)
  {
  }

  lemma Left12(x: bv16, y: bv16)
    ensures Plus(x, y) << 12 == Plus(x << 12, y << 12)
  {
  }

  lemma Right8(x: bv16, y: bv16)
    ensures Plus(x, y) >> 8 == Plus(x >> 8, y >> 8)
  {
  }

  lemma Right12(x: bv16, y: bv16)
    ensures Plus(x, y) >> 12 == Plus(x >> 12, y >> 12)
  {
  }

  lemma Right15(x: bv16, y: bv16)
    ensures Plus(x, y) >> 15 == Plus(x >> 15, y >> 15)
  {
  }

  /** h times x^12 + x^5 + 1, which is x^16 modulo G. */
  function Spread(h: bv16): bv16
  {
    Plus(Plus(h << 12, h << 5), h)
  }

  lemma SpreadLinear(x: bv16, y: bv16)
    ensures Spread(Plus(x, y)) == Plus(Spread(x), Spread(y))
  {
    Left12(x, y);
    Left5(x, y);
    hide Plus;
    Shuffle(x << 12, y << 12, x << 5, y << 5);
    Shuffle(Plus(x << 12, x << 5), Plus(y << 12, y << 5), x, y);
  }

  /** TimesX without a case: the highest bit comes back in three places. */
  function ShiftX(r: bv16): bv16
  {
    Plus(r << 1, Spread(r >> 15))
  }

  lemma TimesXIsShift(r: bv16)
    ensures TimesX(r) == ShiftX(r)
  {
    SpreadBit();
    if r & 0x8000 != 0 {
      HighBitSet(r);
    } else {
      HighBitClear(r);
    }
  }

  lemma SpreadBit()
    ensures Spread(1) == 0x1021 && Spread(0) == 0
  {
  }

  lemma HighBitSet(r: bv16)
    requires r & 0x8000 != 0
    ensures r >> 15 == 1
  {
  }

  lemma HighBitClear(r: bv16)
    requires r & 0x8000 == 0
    ensures r >> 15 == 0
  {
  }

  lemma ShiftXLinear(x: bv16, y: bv16)
    ensures ShiftX(Plus(x, y)) == Plus(ShiftX(x), ShiftX(y))
  {
    Left1(x, y);
    Right15(x, y);
    hide Plus, Spread;
    SpreadLinear(x >> 15, y >> 15);
    Shuffle(x << 1, y << 1, Spread(x >> 15), Spread(y >> 15));
  }

  lemma TimesXLinear(x: bv16, y: bv16)
    ensures TimesX(Plus(x, y)) == Plus(TimesX(x), TimesX(y))
  {
    hide TimesX, ShiftX, Plus;
    TimesXIsShift(x);
    TimesXIsShift(y);
    TimesXIsShift(Plus(x, y));
    ShiftXLinear(x, y);
  }

  lemma TimesX8Linear(x: bv16, y: bv16)
    ensures TimesX8(Plus(x, y)) == Plus(TimesX8(x), TimesX8(y))
  {
    hide TimesX, Plus;
    var x1, y1 := TimesX(x), TimesX(y);
    var x2, y2 := TimesX(x1), TimesX(y1);
    var x3, y3 := TimesX(x2), TimesX(y2);
    var x4, y4 := TimesX(x3), TimesX(y3);
    var x5, y5 := TimesX(x4), TimesX(y4);
    var x6, y6 := TimesX(x5), TimesX(y5);
    var x7, y7 := TimesX(x6), TimesX(y6);
    TimesXLinear(x, y);
    TimesXLinear(x1, y1);
    TimesXLinear(x2, y2);
    TimesXLinear(x3, y3);
    TimesXLinear(x4, y4);
    TimesXLinear(x5, y5);
    TimesXLinear(x6, y6);
    TimesXLinear(x7, y7);
  }

  /** A low byte moves up without overflow. */
  lemma TimesX8Low(b: bv8)
    ensures TimesX8(b as bv16) == Top(b)
  {
  }

  lemma TopLinear(h: bv8, b: bv8)
    ensures Top(h ^ b) == Plus(Top(h), Top(b))
  {
  }

  lemma Halves(r: bv16) returns (h: bv8, l: bv8)
    ensures r == Plus(Top(h), l as bv16) && Top(l) == r << 8 && h == (r >> 8) as bv8
  {
    h, l := (r >> 8) as bv8, (r & 0xFF) as bv8;
  }

  /** The table-driven step adds the byte at the top and divides by x^8. */
  lemma UpdateIs(crc: bv16, b: bv8)
    ensures Update(crc, b) == TimesX8(Plus(crc, Top(b)))
  {
    var h, l := Halves(crc);
    TopLinear(h, b);
    TimesX8Low(l);
    var i := Index(crc, b);
    assert i == h ^ b;
    hide TimesX8, Plus, Top, Index;
    Assoc(Top(h), l as bv16, Top(b));
    Commute(l as bv16, Top(b));
    Assoc(Top(h), Top(b), l as bv16);
    TimesX8Linear(Top(i), l as bv16);
    Commute(crc << 8, TableEntry(i));
  }

  lemma DivideStep(t: bv16, p: bv16, bit: bv16)
    ensures Plus(TimesX(Plus(t, p)), bit) == Plus(TimesX(t), Plus(TimesX(p), bit))
  {
    TimesXLinear(t, p);
    hide TimesX;
    Assoc(TimesX(t), TimesX(p), bit);
  }

  /** Bringing down the bits of a byte into an empty remainder gives the byte. */
  lemma DivideZero(b: bv8)
    ensures DivideByte(0, b) == b as bv16
  {
  }

  lemma DivideByteIs(r: bv16, b: bv8)
    ensures DivideByte(r, b) == Plus(TimesX8(r), b as bv16)
  {
    DivideZero(b);
    assert TimesX(0) == 0;
    hide TimesX, Plus, Bit;
    var t := r;
    var p: bv16 := 0;
    PlusZero(r);
    DivideStep(t, p, Bit(b, 7));
    t, p := TimesX(t), Plus(TimesX(p), Bit(b, 7));
    DivideStep(t, p, Bit(b, 6));
    t, p := TimesX(t), Plus(TimesX(p), Bit(b, 6));
    DivideStep(t, p, Bit(b, 5));
    t, p := TimesX(t), Plus(TimesX(p), Bit(b, 5));
    DivideStep(t, p, Bit(b, 4));
    t, p := TimesX(t), Plus(TimesX(p), Bit(b, 4));
    DivideStep(t, p, Bit(b, 3));
    t, p := TimesX(t), Plus(TimesX(p), Bit(b, 3));
    DivideStep(t, p, Bit(b, 2));
    t, p := TimesX(t), Plus(TimesX(p), Bit(b, 2));
    DivideStep(t, p, Bit(b, 1));
    t, p := TimesX(t), Plus(TimesX(p), Bit(b, 1));
    DivideStep(t, p, Bit(b, 0));
  }

  lemma RemainderMore(s: seq<bv8>, b: bv8)
    ensures Remainder(s + [b]) == Plus(TimesX8(Remainder(s)), b as bv16)
  {
    hide DivideByte, TimesX8, Plus;
    DivideByteIs(Remainder(s), b);
    assert (s + [b])[..|s|] == s;
  }

  lemma PlusZero(x: bv16)
    ensures Plus(x, 0) == x && Plus(0, x) == x && (0 as bv8) as bv16 == 0
  {
  }

  lemma RemainderZero(s: seq<bv8>)
    ensures Remainder(s + [0]) == TimesX8(Remainder(s))
  {
    hide TimesX8, Plus;
    RemainderMore(s, 0);
    PlusZero(TimesX8(Remainder(s)));
  }

  /** After the bytes s the register holds s times x^16, modulo G. */
  lemma {:induction false} RegisterIs(s: seq<bv8>)
    ensures UpdateAll(0, s) == TimesX8(TimesX8(Remainder(s)))
  {
    hide Update, DivideByte;
    if s == [] {
      assert TimesX8(0) == 0;
    } else {
      var t, b := s[..|s| - 1], s[|s| - 1];
      assert s == t + [b];
      RemainderMore(t, b);
      RegisterIs(t);
      var q := TimesX8(Remainder(t));
      UpdateIs(UpdateAll(0, t), b);
      TimesX8Low(b);
      TimesX8Linear(q, b as bv16);
      hide TimesX8, Plus;
      TimesX8Linear(TimesX8(q), Top(b));
    }
  }

  /** The checksum is the remainder of the data and four zero bytes: the table-driven register
      already holds the data times x^16, and the code feeds it two more zero bytes. */
  lemma CrcIsRemainder(s: seq<bv8>)
    ensures Crc(s) == Remainder(s + [0, 0, 0, 0])
  {
    hide Update, TimesX8, Remainder, Plus, UpdateAll;
    RegisterIs(s);
    var c := UpdateAll(0, s);
    UpdateZero(c);
    UpdateZero(TimesX8(c));
    RemainderZero(s);
    RemainderZero(s + [0]);
    RemainderZero(s + [0] + [0]);
    RemainderZero(s + [0] + [0] + [0]);
    assert s + [0, 0, 0, 0] == s + [0] + [0] + [0] + [0];
  }

  lemma UpdateZero(c: bv16)
    ensures Update(c, 0) == TimesX8(c)
  {
    hide TimesX8, Update;
    UpdateIs(c, 0);
    PlusZero(c);
    assert Top(0) == 0;
  }

  /** The CRC of the ZMODEM protocol: the remainder of the data and two zero bytes. */
  function Standard(s: seq<bv8>): bv16
  {
    Remainder(s + [0, 0])
  }

  /** The extra two bytes change the checksum except for two values: the two are equal exactly
      when the standard one is 0 or the cofactor of x + 1 in G. */
  lemma CrcExact(s: seq<bv8>)
    ensures Crc(s) == Standard(s) <==> Standard(s) == 0 || Standard(s) == 0xF01F
  {
    hide TimesX8, Remainder, Crc, Standard;
    CrcFromStandard(s);
    FixedPoints(Standard(s));
  }

  /** One byte is enough to tell them apart: its standard checksum is 1021h. */
  lemma CrcDiffers()
    ensures Standard([1]) == 0x1021 && Crc([1]) != Standard([1])
  {
    assert TimesX8(TimesX8(1)) == 0x1021 && TimesX8(0) == 0 && Plus(0, 1) == 1;
    hide TimesX8, Plus, Crc;
    var one: seq<bv8> := [1];
    RemainderMore([], 1);
    assert [] + one == one && Remainder([]) == 0;
    hide Remainder;
    RemainderZero(one);
    RemainderZero(one + [0]);
    assert one + [0] + [0] == one + [0, 0];
    CrcExact(one);
  }

  lemma CrcFromStandard(s: seq<bv8>)
    ensures Crc(s) == TimesX8(TimesX8(Standard(s)))
  {
    hide TimesX8, Remainder, Crc;
    CrcIsRemainder(s);
    RemainderZero(s + [0, 0]);
    RemainderZero(s + [0, 0] + [0]);
    assert s + [0, 0, 0, 0] == s + [0, 0] + [0] + [0];
  }

  function High(r: bv16): bv16
  {
    Plus(r >> 8, r >> 12)
  }

  /** Eight steps at once. */
  function Folded(r: bv16): bv16
  {
    Plus(r << 8, Spread(High(r)))
  }

  lemma HighFolded(h: bv8)
    ensures TimesX8(Top(h)) == Folded(Top(h))
  {
  }

  lemma HighLinear(x: bv16, y: bv16)
    ensures High(Plus(x, y)) == Plus(High(x), High(y))
  {
    Right8(x, y);
    Right12(x, y);
    hide Plus;
    Shuffle(x >> 8, y >> 8, x >> 12, y >> 12);
  }

  lemma FoldedLinear(x: bv16, y: bv16)
    ensures Folded(Plus(x, y)) == Plus(Folded(x), Folded(y))
  {
    Left8(x, y);
    hide High, Spread, Plus;
    HighLinear(x, y);
    SpreadLinear(High(x), High(y));
    Shuffle(x << 8, y << 8, Spread(High(x)), Spread(High(y)));
  }

  lemma FoldedLow(l: bv8)
    ensures Folded(l as bv16) == Top(l)
  {
  }

  lemma TimesX8Folded(r: bv16)
    ensures TimesX8(r) == Folded(r)
  {
    hide TimesX8, Folded, Plus, Top;
    var h, l := Halves(r);
    HighFolded(h);
    TimesX8Low(l);
    FoldedLow(l);
    TimesX8Linear(Top(h), l as bv16);
    FoldedLinear(Top(h), l as bv16);
  }

  lemma FixedPoints(r: bv16)
    ensures TimesX8(TimesX8(r)) == r <==> r == 0 || r == 0xF01F
  {
    hide TimesX8;
    TimesX8Folded(r);
    TimesX8Folded(Folded(r));
  }

  predicate IsTable(tab: seq<bv16>)
  {
    |tab| == 256 && forall k :: 0 <= k < 256 ==> tab[k] == TableEntry(Byte(k))
  }

  function Times(r: bv16, n: nat): bv16
  {
    if n == 0 then r else TimesX(Times(r, n - 1))
  }

  lemma TimesEight(r: bv16)
    ensures Times(r, 8) == TimesX8(r)
  {
    hide TimesX;
    TimesTwo(r, 0);
    TimesTwo(r, 2);
    TimesTwo(r, 4);
    TimesTwo(r, 6);
  }

  lemma TimesTwo(r: bv16, n: nat)
    ensures Times(r, n + 2) == TimesX(TimesX(Times(r, n)))
  {
    hide TimesX;
    assert Times(r, n + 1) == TimesX(Times(r, n));
  }

  /** One turn of the inner loop. */
  method ShiftOnce(crc: bv16) returns (c: bv16)
    ensures c == TimesX(crc)
  {
    if crc & 0x8000 != 0 {
      c := (crc << 1) ^ 0x1021;
    } else {
      c := crc << 1;
    }
  }

  /** zm_crc_init. */
  method BuildTable() returns (tab: array<bv16>)
    ensures fresh(tab) && IsTable(tab[..])
  {
    hide TimesX8, TimesX, Top, Byte;
    tab := new bv16[256];
    var i := 0;
    while i < 256
      invariant 0 <= i <= 256
      invariant forall k :: 0 <= k < i ==> tab[k] == TableEntry(Byte(k))
    {
      var crc := Top(Byte(i));
      ghost var start := crc;
      var j := 0;
      while j < 8
        invariant 0 <= j <= 8 && crc == Times(start, j)
        invariant forall k :: 0 <= k < i ==> tab[k] == TableEntry(Byte(k))
      {
        crc := ShiftOnce(crc);
        j := j + 1;
      }
      TimesEight(start);
      assert crc == TableEntry(Byte(i));
      tab[i] := crc;
      i := i + 1;
    }
  }

  /** zm_crc_upd with the table: the byte is added at the top and divided eight times. */
  method CrcUpdate(tab: array<bv16>, crc: bv16, b: bv8) returns (c: bv16)
    requires IsTable(tab[..])
    ensures c == Update(crc, b) == TimesX8(Plus(crc, Top(b)))
  {
    hide TableEntry, Byte, Index, Plus, TimesX8, Top;
    UpdateIs(crc, b);
    var i := Index(crc, b);
    ByteOfNumber(i);
    assert tab[i as int] == tab[..][i as int];
    c := Plus(crc << 8, tab[i as int]);
  }
}
