/** Integer powers, remainders and the value of a string of base-256 digits. */
module Powers {

  type byte = x: int | 0 <= x < 256

  /** How often something counts: once or not at all. */
  function One(b: bool): nat
  {
    if b then 1 else 0
  }

  /** A 16-bit word as a C `int`. */
  function Signed(v: int): (r: int)
    ensures -32768 <= r < 32768 && (r - v) % 65536 == 0
    ensures -32768 <= v < 32768 ==> r == v
  {
    var w := v % 65536;
    if w < 32768 then w else w - 65536
  }

  lemma {:induction false} MulNonNeg(x: nat, y: nat)
    ensures x * y >= 0
  {
    if x > 0 {
      MulNonNeg(x - 1, y);
      assert x * y == (x - 1) * y + y;
    }
  }

  lemma MulLe(x: int, y: int, p: nat)
    requires x <= y
    ensures x * p <= y * p
  {
    MulNonNeg(y - x, p);
    assert (y - x) * p == y * p - x * p;
  }

  lemma MulSucc(x: int, m: int)
    ensures (x + 1) * m == x * m + m
  {
  }

  lemma MulAssoc(a: int, b: int, c: int)
    ensures a * (b * c) == (a * b) * c
  {
  }

  function Pow(b: nat, e: nat): nat
  {
    if e == 0 then 1 else b * Pow(b, e - 1)
  }

  lemma {:induction false} PowAdd(b: nat, x: nat, y: nat)
    ensures Pow(b, x + y) == Pow(b, x) * Pow(b, y)
  {
    if x > 0 {
      PowAdd(b, x - 1, y);
      MulAssoc(b, Pow(b, x - 1), Pow(b, y));
    }
  }

  lemma {:induction false} PowPos(b: nat, e: nat)
    requires b > 0
    ensures Pow(b, e) > 0
  {
    if e > 0 {
      PowPos(b, e - 1);
    }
  }

  lemma {:induction false} PowGrows(b: nat, x: nat, y: nat)
    requires b > 0 && x <= y
    ensures Pow(b, x) <= Pow(b, y)
    decreases y
  {
    if x < y {
      PowGrows(b, x, y - 1);
      MulLe(1, b, Pow(b, y - 1));
    }
  }

  /** (2^16)^k is 2^(16k), and (2^8)^2k likewise: limbs, bytes and bits agree. */
  lemma {:induction false} PowOfPow(k: nat)
    ensures Pow(65536, k) == Pow(2, 16 * k)
  {
    if k > 0 {
      PowOfPow(k - 1);
      PowAdd(2, 16, 16 * (k - 1));
      Pow2To16();
    }
  }

  lemma Pow2To16()
    ensures Pow(2, 4) == 16 && Pow(2, 8) == 256 && Pow(2, 16) == 65536
  {
    assert Pow(2, 4) == 16;
    PowAdd(2, 4, 4);
    PowAdd(2, 8, 8);
  }

  lemma DivModIdentity(a: int, m: int)
    requires m > 0
    ensures a == (a / m) * m + a % m && 0 <= a % m < m
  {
  }

  /** A quotient and a remainder in range are the quotient and the remainder. */
  lemma DivModUnique(a: int, q: int, m: int, r: int)
    requires 0 <= r < m && a == q * m + r
    ensures a / m == q && a % m == r
  {
    DivModIdentity(a, m);
    var q' := a / m;
    if q' > q {
      MulSucc(q, m);
      MulLe(q + 1, q', m);
    } else if q' < q {
      MulSucc(q', m);
      MulLe(q' + 1, q, m);
    }
  }

  lemma ModAddMultiple(x: int, k: int, m: int)
    requires m > 0
    ensures (x + k * m) % m == x % m && (x + k * m) / m == x / m + k
  {
    assert x + k * m == (x / m + k) * m + x % m;
    DivModUnique(x + k * m, x / m + k, m, x % m);
  }

  /** A product modulo m depends only on its factors modulo m. */
  lemma ModMul(x: int, y: int, m: int)
    requires m > 0
    ensures (x * y) % m == ((x % m) * (y % m)) % m
  {
    var k := (x / m) * y + (x % m) * (y / m);
    DivModIdentity(x, m);
    DivModIdentity(y, m);
    ProductOfSums(x, y, x / m, x % m, y / m, y % m, m);
    ModAddMultiple((x % m) * (y % m), k, m);
  }

  lemma ProductOfSums(x: int, y: int, qx: int, rx: int, qy: int, ry: int, m: int)
    requires x == qx * m + rx && y == qy * m + ry
    ensures x * y == rx * ry + (qx * y + rx * qy) * m
  {
  }

  lemma DivDiv(v: nat, p: nat, s: nat)
    requires p > 0 && s > 0
    ensures p * s > 0 && v / (p * s) == v / p / s
  {
    ModStep(v, p, s);
    var q := v / p / s;
    assert q * (p * s) == p * (q * s);
    assert p * (v / p) == p * (q * s) + p * (v / p % s);
    DivModUnique(v, q, p * s, v % (p * s));
  }

  /** Reducing modulo b * p keeps the low digit and reduces the rest modulo p. */
  lemma ModStep(v: nat, b: nat, p: nat)
    requires b > 0 && p > 0
    ensures b * p > 0
    ensures v % (b * p) == b * ((v / b) % p) + v % b
  {
    var q, r := v / b / p, v / b % p;
    assert q * (b * p) == b * (q * p);
    assert b * (v / b) == b * (q * p) + b * r;
    assert b * r <= b * (p - 1) == b * p - b;
    DivModUnique(v, q, b * p, b * r + v % b);
  }

  /** The number a big-endian byte string denotes (OS2IP of RFC 8017, section 4.2). */
  function BeValue(s: seq<byte>): nat
  {
    if s == [] then 0 else 256 * BeValue(s[..|s| - 1]) + s[|s| - 1]
  }

  /** The len low-order bytes of v, most significant first (I2OSP of RFC 8017, section 4.1,
      when v < 256^len). */
  function BeBytes(v: nat, len: nat): (s: seq<byte>)
    ensures |s| == len
  {
    if len == 0 then [] else BeBytes(v / 256, len - 1) + [v % 256]
  }

  lemma {:induction false} BeBytesValue(v: nat, len: nat)
    ensures Pow(256, len) > 0
    ensures BeValue(BeBytes(v, len)) == v % Pow(256, len)
  {
    PowPos(256, len);
    if len > 0 {
      var s := BeBytes(v, len);
      assert s[..len - 1] == BeBytes(v / 256, len - 1);
      BeBytesValue(v / 256, len - 1);
      PowPos(256, len - 1);
      ModStep(v, 256, Pow(256, len - 1));
    }
  }

  lemma {:induction false} BeValueBytes(s: seq<byte>)
    ensures BeValue(s) < Pow(256, |s|)
    ensures BeBytes(BeValue(s), |s|) == s
  {
    if s != [] {
      BeValueBytes(s[..|s| - 1]);
      assert s == s[..|s| - 1] + [s[|s| - 1]];
    }
  }
}
