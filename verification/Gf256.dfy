/**
 Bytes as elements of GF(2^8) modulo x^8 + x^4 + x^3 + x + 1 (section 4 of FIPS 197).
 Addition is wrapped in a function so that proofs above this module can use its algebraic
 laws without looking at bits.
 */
module Gf256 {

  function Add(x: bv8, y: bv8): bv8
  {
    x ^ y
  }

  /** Multiplication by x, as the mulby2 macro computes it. */
  function Xtime(x: bv8): bv8
  {
    ((x & 0x7F) << 1) ^ (if x & 0x80 != 0 then 0x1B else 0)
  }

  function Mul3(x: bv8): bv8
  {
    Add(Xtime(x), x)
  }

  function Mul4(x: bv8): bv8
  {
    Xtime(Xtime(x))
  }

  function Mul8(x: bv8): bv8
  {
    Xtime(Mul4(x))
  }

  function Mul9(x: bv8): bv8
  {
    Add(Mul8(x), x)
  }

  function MulB(x: bv8): bv8
  {
    Add(Add(Mul8(x), Xtime(x)), x)
  }

  function MulD(x: bv8): bv8
  {
    Add(Add(Mul8(x), Mul4(x)), x)
  }

  function MulE(x: bv8): bv8
  {
    Add(Add(Mul8(x), Mul4(x)), Xtime(x))
  }

  /** The product in GF(2^8): the multiples of x by powers of the variable, selected by y. */
  function Mul(x: bv8, y: bv8): bv8
  {
    var x1 := Xtime(x);
    var x2 := Xtime(x1);
    var x3 := Xtime(x2);
    var x4 := Xtime(x3);
    var x5 := Xtime(x4);
    var x6 := Xtime(x5);
    var x7 := Xtime(x6);
    (if y & 0x01 != 0 then x else 0) ^ (if y & 0x02 != 0 then x1 else 0)
    ^ (if y & 0x04 != 0 then x2 else 0) ^ (if y & 0x08 != 0 then x3 else 0)
    ^ (if y & 0x10 != 0 then x4 else 0) ^ (if y & 0x20 != 0 then x5 else 0)
    ^ (if y & 0x40 != 0 then x6 else 0) ^ (if y & 0x80 != 0 then x7 else 0)
  }

  /** The named multiples are products by 3, 9, 11, 13 and 14. */
  lemma NamedMultiples(x: bv8)
    ensures Xtime(x) == Mul(x, 0x02) && Mul3(x) == Mul(x, 0x03)
    ensures Mul9(x) == Mul(x, 0x09) && MulB(x) == Mul(x, 0x0b)
    ensures MulD(x) == Mul(x, 0x0d) && MulE(x) == Mul(x, 0x0e)
  {
    if x & 0x80 != 0 {
    }
    if x & 0x40 != 0 {
    }
    if x & 0x20 != 0 {
    }
  }

  // ---- The additive group ----

  lemma AddComm(x: bv8, y: bv8)
    ensures Add(x, y) == Add(y, x)
  {
  }

  lemma AddAssoc(x: bv8, y: bv8, z: bv8)
    ensures Add(Add(x, y), z) == Add(x, Add(y, z))
  {
  }

  lemma AddZero(x: bv8)
    ensures Add(x, 0) == x && Add(0, x) == x && Add(x, x) == 0
  {
  }

  lemma AddCancel(x: bv8, y: bv8)
    ensures Add(Add(x, y), y) == x
  {
    hide *;
    AddAssoc(x, y, y);
    AddZero(y);
    AddZero(x);
  }

  /** (a + b) + (c + d) = (a + c) + (b + d) */
  lemma AddSwap(a: bv8, b: bv8, c: bv8, d: bv8)
    ensures Add(Add(a, b), Add(c, d)) == Add(Add(a, c), Add(b, d))
  {
    hide *;
    calc {
      Add(Add(a, b), Add(c, d));
      { AddAssoc(a, b, Add(c, d)); }
      Add(a, Add(b, Add(c, d)));
      { AddAssoc(b, c, d); AddComm(b, c); AddAssoc(c, b, d); }
      Add(a, Add(c, Add(b, d)));
      { AddAssoc(a, c, Add(b, d)); }
      Add(Add(a, c), Add(b, d));
    }
  }

  function Sum4(a: bv8, b: bv8, c: bv8, d: bv8): bv8
  {
    Add(Add(Add(a, b), c), d)
  }

  lemma Sum4Add(a: bv8, b: bv8, c: bv8, d: bv8, a': bv8, b': bv8, c': bv8, d': bv8)
    ensures Sum4(Add(a, a'), Add(b, b'), Add(c, c'), Add(d, d')) == Add(Sum4(a, b, c, d), Sum4(a', b', c', d'))
  {
    hide Add;
    AddSwap(a, a', b, b');
    AddSwap(Add(a, b), Add(a', b'), c, c');
    AddSwap(Add(Add(a, b), c), Add(Add(a', b'), c'), d, d');
  }

  // ---- The multiples distribute over addition ----

  lemma XtimeAdd(x: bv8, y: bv8)
    ensures Xtime(Add(x, y)) == Add(Xtime(x), Xtime(y))
  {
    if x & 0x80 != 0 {
    }
    if y & 0x80 != 0 {
    }
  }

  lemma Mul8Add(x: bv8, y: bv8)
    ensures Mul4(Add(x, y)) == Add(Mul4(x), Mul4(y))
    ensures Mul8(Add(x, y)) == Add(Mul8(x), Mul8(y))
  {
    hide Add, Xtime;
    XtimeAdd(x, y);
    XtimeAdd(Xtime(x), Xtime(y));
    XtimeAdd(Mul4(x), Mul4(y));
  }

  lemma MultiplesAdd(x: bv8, y: bv8)
    ensures Mul3(Add(x, y)) == Add(Mul3(x), Mul3(y))
    ensures Mul9(Add(x, y)) == Add(Mul9(x), Mul9(y))
    ensures MulB(Add(x, y)) == Add(MulB(x), MulB(y))
    ensures MulD(Add(x, y)) == Add(MulD(x), MulD(y))
    ensures MulE(Add(x, y)) == Add(MulE(x), MulE(y))
  {
    hide Add, Xtime, Mul4, Mul8;
    XtimeAdd(x, y);
    Mul8Add(x, y);
    AddSwap(Xtime(x), Xtime(y), x, y);
    AddSwap(Mul8(x), Mul8(y), x, y);
    AddSwap(Mul8(x), Mul8(y), Xtime(x), Xtime(y));
    AddSwap(Add(Mul8(x), Xtime(x)), Add(Mul8(y), Xtime(y)), x, y);
    AddSwap(Mul8(x), Mul8(y), Mul4(x), Mul4(y));
    AddSwap(Add(Mul8(x), Mul4(x)), Add(Mul8(y), Mul4(y)), x, y);
    AddSwap(Add(Mul8(x), Mul4(x)), Add(Mul8(y), Mul4(y)), Xtime(x), Xtime(y));
  }

  // ---- The rows of the inverse matrix undo the columns of the forward one ----
  // Each is a fact about one byte; splitting on its high bits keeps the search short.

  lemma InverseRow0(x: bv8)
    ensures Sum4(MulE(Xtime(x)), MulB(x), MulD(x), Mul9(Mul3(x))) == x
  {
    if x & 0x80 != 0 {
    }
    if x & 0x40 != 0 {
    }
    if x & 0x20 != 0 {
    }
  }

  lemma InverseRow1(x: bv8)
    ensures Sum4(Mul9(Xtime(x)), MulE(x), MulB(x), MulD(Mul3(x))) == 0
  {
    if x & 0x80 != 0 {
    }
    if x & 0x40 != 0 {
    }
    if x & 0x20 != 0 {
    }
  }

  lemma InverseRow2(x: bv8)
    ensures Sum4(MulD(Xtime(x)), Mul9(x), MulE(x), MulB(Mul3(x))) == 0
  {
    if x & 0x80 != 0 {
    }
    if x & 0x40 != 0 {
    }
    if x & 0x20 != 0 {
    }
  }

  lemma InverseRow3(x: bv8)
    ensures Sum4(MulB(Xtime(x)), MulD(x), Mul9(x), MulE(Mul3(x))) == 0
  {
    if x & 0x80 != 0 {
    }
    if x & 0x40 != 0 {
    }
    if x & 0x20 != 0 {
    }
  }

  // ---- The same for the forward matrix after the inverse one ----

  lemma ForwardRow0(x: bv8)
    ensures Sum4(Xtime(MulE(x)), Mul3(Mul9(x)), MulD(x), MulB(x)) == x
  {
    if x & 0x80 != 0 {
    }
    if x & 0x40 != 0 {
    }
    if x & 0x20 != 0 {
    }
  }

  lemma ForwardRow1(x: bv8)
    ensures Sum4(MulE(x), Xtime(Mul9(x)), Mul3(MulD(x)), MulB(x)) == 0
  {
    if x & 0x80 != 0 {
    }
    if x & 0x40 != 0 {
    }
    if x & 0x20 != 0 {
    }
  }

  lemma ForwardRow2(x: bv8)
    ensures Sum4(MulE(x), Mul9(x), Xtime(MulD(x)), Mul3(MulB(x))) == 0
  {
    if x & 0x80 != 0 {
    }
    if x & 0x40 != 0 {
    }
    if x & 0x20 != 0 {
    }
  }

  lemma ForwardRow3(x: bv8)
    ensures Sum4(Mul3(MulE(x)), Mul9(x), MulD(x), Xtime(MulB(x))) == 0
  {
    if x & 0x80 != 0 {
    }
    if x & 0x40 != 0 {
    }
    if x & 0x20 != 0 {
    }
  }
}
