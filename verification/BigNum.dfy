/**
 The multi-precision arithmetic of the TLS client: arrays of 16-bit limbs whose element 0 holds
 the number of limbs and whose elements 1.. are the limbs, least significant first.
 Every method is proved against the number the array denotes.
 */
module BigNum {
  import opened Powers

  type limb = x: int | 0 <= x < 65536

  /** A C `int` has 16 bits: a number has few enough limbs for its bit count to fit. */
  const MAX_LIMBS := 2047

  ghost function Val(w: seq<limb>): nat
  {
    if w == [] then 0 else Val(w[..|w| - 1]) + w[|w| - 1] * Pow(65536, |w| - 1)
  }

  ghost predicate IsBn(b: array<limb>)
    reads b
  {
    b.Length >= 1 && b.Length == (b[0] as int) + 1
  }

  ghost function BnVal(b: array<limb>): nat
    requires IsBn(b)
    reads b
  {
    Val(b[1..])
  }

  // ---- The value of a limb string ----

  lemma Bases(b: nat)
    ensures Val([]) == 0 && BeValue([]) == 0 && Pow(b, 0) == 1
  {
  }

  lemma ValSnoc(w: seq<limb>, x: limb)
    ensures Val(w + [x]) == Val(w) + x * Pow(65536, |w|)
  {
    assert (w + [x])[..|w|] == w;
  }

  lemma Distribute(p: int, a: int, x: int, q: int)
    ensures p * (a + x * q) == p * a + x * (p * q)
  {
  }

  lemma {:induction false} ValConcat(u: seq<limb>, v: seq<limb>)
    ensures Val(u + v) == Val(u) + Pow(65536, |u|) * Val(v) >= Val(u)
  {
    MulLe(0, Val(v), Pow(65536, |u|));
    if v == [] {
      assert u + v == u;
    } else {
      var n := |v| - 1;
      ValConcat(u, v[..n]);
      assert (u + v)[..|u| + n] == u + v[..n];
      PowAdd(65536, |u|, n);
      Distribute(Pow(65536, |u|), Val(v[..n]), v[n], Pow(65536, n));
    }
  }

  lemma {:induction false} ValBound(w: seq<limb>)
    ensures Val(w) < Pow(65536, |w|)
  {
    if w != [] {
      var n := |w| - 1;
      ValBound(w[..n]);
      MulLe(w[n], 65535, Pow(65536, n));
    }
  }

  /** Writing limb k changes the value by the difference at weight 65536^k. */
  lemma {:induction false} ValUpdate(w: seq<limb>, k: nat, x: limb)
    requires k < |w|
    ensures Val(w[k := x]) == Val(w) + (x - w[k]) * Pow(65536, k)
  {
    var n := |w| - 1;
    var w' := w[k := x];
    if k < n {
      assert w'[..n] == w[..n][k := x];
      ValUpdate(w[..n], k, x);
    } else {
      assert w'[..n] == w[..n];
    }
  }

  lemma {:induction false} ValZeros(w: seq<limb>)
    requires forall k :: 0 <= k < |w| ==> w[k] == 0
    ensures Val(w) == 0
  {
    if w != [] {
      ValZeros(w[..|w| - 1]);
    }
  }

  /** Leading zero limbs may be dropped. */
  lemma ValTrim(w: seq<limb>, n: nat)
    requires n <= |w| && forall k :: n <= k < |w| ==> w[k] == 0
    ensures Val(w[..n]) == Val(w)
  {
    ValZeros(w[n..]);
    ValConcat(w[..n], w[n..]);
    assert w == w[..n] + w[n..];
  }

  /** A value below 65536^n has only zero limbs from n on. */
  lemma ValHighZero(w: seq<limb>, n: nat, k: nat)
    requires n <= k < |w| && Val(w) < Pow(65536, n)
    ensures w[k] == 0
  {
    var u, v := w[..k], w[k + 1..];
    assert w == (u + [w[k]]) + v;
    ValConcat(u + [w[k]], v);
    ValSnoc(u, w[k]);
    PowGrows(65536, n, k);
    if w[k] > 0 {
      MulLe(1, w[k], Pow(65536, k));
    }
  }

  /** The highest differing limb decides a comparison. */
  lemma ValLess(x: seq<limb>, y: seq<limb>, k: nat)
    requires |x| == |y| && k < |x| && x[k] < y[k] && x[k + 1..] == y[k + 1..]
    ensures Val(x) < Val(y)
  {
    hide *;
    var u, v := x[..k] + [x[k]], y[..k] + [y[k]];
    assert x == u + x[k + 1..] && y == v + y[k + 1..];
    ValConcat(u, x[k + 1..]);
    ValConcat(v, y[k + 1..]);
    ValSnoc(x[..k], x[k]);
    ValSnoc(y[..k], y[k]);
    ValBound(x[..k]);
    MulSucc(x[k], Pow(65536, k));
    MulLe(x[k] + 1, y[k], Pow(65536, k));
  }

  // ---- Allocation, bytes, bits ----

  method BnAlloc(words: int) returns (b: array<limb>)
    requires 0 <= words < 65536
    ensures fresh(b) && IsBn(b) && b[0] == words
    ensures forall k :: 1 <= k <= words ==> b[k] == 0
  {
    b := new limb[words + 1](_ => 0);
    b[0] := words;
  }

  /** One byte more at the top of the k-byte number v. */
  lemma BytePlace(k: nat, b: byte, w: seq<limb>)
    requires k / 2 < |w|
    requires b * (if k % 2 == 1 then 256 else 1) + w[k / 2] < 65536
    ensures Val(w[k / 2 := w[k / 2] + b * (if k % 2 == 1 then 256 else 1)]) == Val(w) + b * Pow(256, k)
  {
    var s := if k % 2 == 1 then 256 else 1;
    ValUpdate(w, k / 2, w[k / 2] + b * s);
    PowOfPow256(k / 2);
    PowAdd(256, 2 * (k / 2), k % 2);
    assert Pow(256, k % 2) == s;
    var p := Pow(65536, k / 2);
    assert (b * s) * p == b * (p * s);
  }

  lemma {:induction false} PowOfPow256(k: nat)
    ensures Pow(65536, k) == Pow(256, 2 * k)
  {
    if k > 0 {
      PowOfPow256(k - 1);
      assert Pow(256, 2 * k) == 256 * (256 * Pow(256, 2 * k - 2));
    }
  }

  lemma {:induction false} BeValueCons(x: byte, s: seq<byte>)
    ensures BeValue([x] + s) == x * Pow(256, |s|) + BeValue(s)
  {
    if s == [] {
      assert [x] + s == [x];
      assert BeValue([x]) == 256 * BeValue([]) + x;
    } else {
      var n := |s| - 1;
      assert ([x] + s)[..n + 1] == [x] + s[..n];
      BeValueCons(x, s[..n]);
      var p := Pow(256, n);
      assert 256 * (x * p) == x * (256 * p);
    }
  }

  method BnFromBytes(data: array<byte>) returns (b: array<limb>)
    requires data.Length <= 32766
    ensures IsBn(b) && b[0] == (data.Length + 1) / 2
    ensures BnVal(b) == BeValue(data[..])
  {
    hide Pow, Val, BeValue;
    var nbytes := data.Length;
    b := BnAlloc((nbytes + 1) / 2);
    ValZeros(b[1..]);
    Bases(2);
    assert data[nbytes..] == [];
    var i := 0;
    while i < nbytes
      invariant 0 <= i <= nbytes
      invariant IsBn(b) && b[0] == (nbytes + 1) / 2
      invariant BnVal(b) == BeValue(data[nbytes - i..])
      invariant forall k :: i <= 2 * (k - 1) && 1 <= k < b.Length ==> b[k] == 0
      invariant i % 2 == 1 ==> b[1 + i / 2] < 256
    {
      var wi := i / 2;
      var x: int := data[nbytes - 1 - i];
      ghost var w := b[1..];
      BytePlace(i, x, w);
      // the bits set by the disjunction are still clear, so it adds
      b[1 + wi] := b[1 + wi] + x * (if i % 2 == 1 then 256 else 1);
      assert b[1..] == w[wi := b[1 + wi]];
      assert data[nbytes - 1 - i..] == [x] + data[nbytes - i..];
      BeValueCons(x, data[nbytes - i..]);
      i := i + 1;
    }
    assert data[0..] == data[..];
  }

  /** The bits of a non-zero limb, counted by shifting it out. */
  method LimbBits(limb0: limb) returns (bits: int)
    requires limb0 > 0
    ensures 1 <= bits <= 16 && limb0 < Pow(2, bits) <= 2 * limb0
  {
    hide Pow;
    Bases(2);
    var x: int, top: int := limb0, limb0;
    ghost var p: nat := 1;
    bits := 0;
    while top != 0
      invariant 0 <= top && 0 <= bits <= 16
      invariant p == Pow(2, bits) <= 65536
      invariant top * p <= x < (top + 1) * p
      invariant top == 0 ==> bits > 0 && p <= 2 * x
      decreases top
    {
      HalveTop(top, p, bits, limb0);
      p := 2 * p;
      bits := bits + 1;
      top := top / 2;
    }
  }

  /** The bit count: zero for zero, otherwise the exponent just above the value. */
  method BnBits(b: array<limb>) returns (bits: int)
    requires IsBn(b) && b[0] <= MAX_LIMBS
    ensures 0 <= bits <= 16 * b[0]
    ensures bits == 0 <==> BnVal(b) == 0
    ensures bits > 0 ==> Pow(2, bits - 1) <= BnVal(b) < Pow(2, bits)
  {
    hide Pow, Val;
    var nw := b[0];
    while nw > 0 && b[nw] == 0
      invariant 0 <= nw <= b[0]
      invariant forall k :: nw < k <= b[0] ==> b[k] == 0
    {
      nw := nw - 1;
    }
    ghost var w := b[1..];
    if nw == 0 {
      ValZeros(w);
      return 0;
    }
    var t := LimbBits(b[nw]);
    bits := (nw - 1) * 16 + t;
    BitCount(w, nw, t);
  }

  lemma BitCount(w: seq<limb>, n: nat, t: nat)
    requires 0 < n <= |w| && forall k :: n <= k < |w| ==> w[k] == 0
    requires 0 < t && w[n - 1] > 0 && w[n - 1] < Pow(2, t) <= 2 * (w[n - 1] as int)
    ensures Pow(2, 16 * (n - 1) + t - 1) <= Val(w) < Pow(2, 16 * (n - 1) + t)
    ensures Val(w) > 0
  {
    hide *;
    var u := w[..n - 1];
    ValTrim(w, n);
    assert w[..n] == u + [w[n - 1]];
    ValSnoc(u, w[n - 1]);
    ValBound(u);
    PowOfPow(n - 1);
    PowPos(2, 16 * (n - 1) + t - 1);
    BitsScale(w[n - 1], Pow(65536, n - 1), Val(u), t, 16 * (n - 1));
  }

  lemma HalveTop(top: nat, p: nat, t: nat, x: limb)
    requires top > 0 && p == Pow(2, t) && top * p <= x < (top + 1) * p
    ensures t < 16 && 2 * p == Pow(2, t + 1) <= 65536
    ensures (top / 2) * (2 * p) <= x < (top / 2 + 1) * (2 * p)
    ensures top / 2 == 0 ==> 2 * p <= 2 * x
  {
    var h := top / 2;
    MulAssoc(h, 2, p);
    MulAssoc(h + 1, 2, p);
    MulLe(1, top, p);
    MulLe(h * 2, top, p);
    MulLe(top + 1, (h + 1) * 2, p);
    Pow2To16();
    if t >= 16 {
      PowGrows(2, 16, t);
    }
    PowGrows(2, t + 1, 16);
  }

  lemma BitsScale(x: nat, p: nat, low: nat, t: nat, e: nat)
    requires t > 0 && x < Pow(2, t) <= 2 * x
    requires low < p == Pow(2, e)
    ensures Pow(2, e + t - 1) <= low + x * p < Pow(2, e + t)
  {
    hide *;
    PowAdd(2, t, e);
    PowAdd(2, t - 1, e);
    PowAdd(2, 1, t - 1);
    Pow65536();
    MulSucc(x, p);
    MulLe(x + 1, Pow(2, t), p);
    MulLe(Pow(2, t - 1), x, p);
  }

  /** Bit n of the number. */
  method BnBit(b: array<limb>, n: int) returns (bit: int)
    requires IsBn(b) && 0 <= n <= 32766
    ensures Pow(2, n) > 0 && bit == (BnVal(b) / Pow(2, n)) % 2
  {
    PowPos(2, n);
    var wi := n / 16 + 1;
    if wi > b[0] {
      ValBound(b[1..]);
      PowOfPow(b[0]);
      PowGrows(2, 16 * b[0], n);
      DivModUnique(BnVal(b), 0, Pow(2, n), BnVal(b));
      return 0;
    }
    PowPos(2, n % 16);
    bit := (b[wi] / Pow(2, n % 16)) % 2;
    ghost var w := b[1..];
    LimbBit(w, wi - 1, n % 16);
    assert 16 * (wi - 1) + n % 16 == n;
  }

  lemma LimbBit(w: seq<limb>, k: nat, t: nat)
    requires k < |w| && t < 16
    ensures Pow(2, t) > 0 && Pow(2, 16 * k + t) > 0
    ensures (Val(w) / Pow(2, 16 * k + t)) % 2 == (w[k] / Pow(2, t)) % 2
  {
    hide *;
    LimbSplit(w, k);
    PowOfPow(k);
    PowPos(2, t);
    PowPos(2, 16 * k + t);
    PowAdd(2, 16 * k, t);
    Pow65536();
    Pow2To16();
    PowAdd(2, t, 16 - t);
    PowAdd(2, 1, 15 - t);
    PowAdd(2, 0, 1);
    var p, s := Pow(65536, k), Pow(2, t);
    BitAt(Val(w), Val(w[..k]), p, w[k], Val(w[k + 1..]), s, Pow(2, 15 - t));
  }

  /** The limbs below k, limb k itself and the limbs above it. */
  lemma LimbSplit(w: seq<limb>, k: nat)
    requires k < |w|
    ensures Val(w[..k]) < Pow(65536, k)
    ensures Val(w) == Val(w[..k]) + Pow(65536, k) * (w[k] + Val(w[k + 1..]) * 65536)
  {
    hide *;
    assert w == (w[..k] + [w[k]]) + w[k + 1..];
    ValConcat(w[..k] + [w[k]], w[k + 1..]);
    ValSnoc(w[..k], w[k]);
    ValBound(w[..k]);
    PowAdd(65536, k, 1);
    Pow65536();
    WeightedSum(Val(w), Val(w[..k]), w[k], Pow(65536, k), Pow(65536, k + 1), Val(w[k + 1..]));
  }

  lemma WeightedSum(v: int, low: int, x: int, p: int, p': int, high: int)
    requires v == (low + x * p) + p' * high && p' == p * 65536
    ensures v == low + p * (x + high * 65536)
  {
    Distribute(p, x, high, 65536);
  }

  lemma Pow65536()
    ensures Pow(65536, 1) == 65536 && Pow(2, 1) == 2
  {
  }

  /** Drop the digits below weight p, then the bits below weight s. */
  lemma BitAt(v: nat, low: nat, p: nat, x: nat, high: nat, s: nat, h: nat)
    requires v == low + p * (x + high * 65536) && low < p
    requires s > 0 && s * (2 * h) == 65536
    ensures p * s > 0 && (v / (p * s)) % 2 == (x / s) % 2
  {
    DivModUnique(v, x + high * 65536, p, low);
    DivDiv(v, p, s);
    EvenMultiple(x, high, s, h);
  }

  lemma EvenMultiple(x: nat, high: nat, s: nat, h: nat)
    requires s > 0 && s * (2 * h) == 65536
    ensures ((x + high * 65536) / s) % 2 == (x / s) % 2
  {
    Regroup(high, s, h);
    ModAddMultiple(x, 2 * (high * h), s);
  }

  lemma Regroup(high: nat, s: nat, h: nat)
    ensures high * (s * (2 * h)) == (2 * (high * h)) * s
  {
  }

  /** -1, 0 or 1 as a is below, equal to or above b. */
  method BnCmp(a: array<limb>, b: array<limb>) returns (c: int)
    requires IsBn(a) && IsBn(b) && a[0] <= 32766 && b[0] <= 32766
    ensures c == if BnVal(a) < BnVal(b) then -1 else if BnVal(a) == BnVal(b) then 0 else 1
  {
    hide Pow, Val;
    var aw, bw := a[0], b[0];
    var max := if aw > bw then aw else bw;
    ghost var x := Padded(a[1..], max);
    ghost var y := Padded(b[1..], max);
    var i := max;
    while i >= 1
      invariant 0 <= i <= max
      invariant x[i..] == y[i..]
    {
      var av := if i <= aw then a[i] else 0;
      var bv := if i <= bw then b[i] else 0;
      assert av == x[i - 1] && bv == y[i - 1];
      if av < bv {
        ValLess(x, y, i - 1);
        return -1;
      }
      if av > bv {
        ValLess(y, x, i - 1);
        return 1;
      }
      assert x[i - 1..] == [x[i - 1]] + x[i..] && y[i - 1..] == [y[i - 1]] + y[i..];
      i := i - 1;
    }
    assert x == x[0..] && y == y[0..];
    return 0;
  }

  ghost function Padded(w: seq<limb>, n: nat): (p: seq<limb>)
    requires |w| <= n
    ensures |p| == n && Val(p) == Val(w)
    ensures forall k :: 0 <= k < n ==> p[k] == if k < |w| then w[k] else 0
  {
    var z: seq<limb> := seq(n - |w|, _ => 0);
    ValZeros(z);
    ValConcat(w, z);
    w + z
  }

  // ---- Multiplication ----

  /** One inner step: the double-length product plus limb plus carry, split at 16 bits. */
  lemma MulStep(x: limb, y: limb, o: limb, c: limb, prod: int)
    requires prod == x * y + o + c
    ensures 0 <= prod < 0x1_0000_0000 && 0 <= prod / 65536 < 65536
  {
    MulNonNeg(x, y);
    MulLe(x, 65535, y);
  }

  lemma MulWeight(v: int, v': int, o: int, c: int, xy: int, p: int, prod: int)
    requires prod == xy + o + c && v' == v + (prod % 65536 - o) * p
    ensures v' + (prod / 65536) * (65536 * p) == (v + c * p) + xy * p
  {
    var h, l := prod / 65536, prod % 65536;
    assert (l - o) * p + h * (65536 * p) == (l + 65536 * h) * p - o * p;
    assert l + 65536 * h == xy + o + c;
    assert (xy + o + c) * p == xy * p + o * p + c * p;
  }

  lemma RowWeight(x: int, y: int, vb: int, q: int, pb: int)
    ensures x * (vb + y * pb) * q == x * vb * q + (x * y) * (q * pb)
  {
  }

  /** The exact product, limb by limb. */
  method BnMul(a: array<limb>, b: array<limb>) returns (r: array<limb>)
    requires IsBn(a) && IsBn(b) && a[0] as int + b[0] as int <= 32766
    ensures IsBn(r) && r[0] as int == a[0] as int + b[0] as int
    ensures BnVal(r) == BnVal(a) * BnVal(b)
  {
    hide Pow, Val;
    var aw: int, bw: int := a[0], b[0];
    var rw := aw + bw;
    r := BnAlloc(rw);
    ghost var ws, bs := a[1..], b[1..];
    ValZeros(r[1..]);
    Bases(2);
    assert ws[..0] == [];
    var i := 1;
    while i <= aw
      invariant 1 <= i <= aw + 1
      invariant IsBn(r) && r[0] == rw
      invariant Val(r[1..]) == Val(ws[..i - 1]) * Val(bs)
      invariant forall k :: i + bw <= k <= rw ==> r[k] == 0
    {
      var carry: limb := 0;
      ghost var start := Val(r[1..]);
      ghost var q := Pow(65536, i - 1);
      assert bs[..0] == [];
      var j := 1;
      while j <= bw
        invariant 1 <= j <= bw + 1
        invariant IsBn(r) && r[0] == rw
        invariant Val(r[1..]) + carry * Pow(65536, i + j - 2) == start + a[i] * Val(bs[..j - 1]) * q
        invariant forall k :: i + bw <= k <= rw ==> r[k] == 0
      {
        var x: int, y: int := a[i], b[j];
        var prod := x * y + r[i + j - 1] + carry;
        MulStep(x, y, r[i + j - 1], carry, prod);
        ghost var w := r[1..];
        ValUpdate(w, i + j - 2, prod % 65536);
        MulWeight(Val(w), Val(w[i + j - 2 := prod % 65536]), w[i + j - 2], carry, x * y, Pow(65536, i + j - 2), prod);
        ProductRow(bs, j - 1, x, i - 1);
        r[i + j - 1] := prod % 65536;
        assert r[1..] == w[i + j - 2 := prod % 65536];
        carry := prod / 65536;
        j := j + 1;
      }
      ghost var w := r[1..];
      ValUpdate(w, i + bw - 1, carry);
      r[i + bw] := (r[i + bw] as int + carry as int) % 65536;
      assert r[1..] == w[i + bw - 1 := carry];
      assert bs[..bw] == bs;
      assert ws[..i] == ws[..i - 1] + [ws[i - 1]];
      ValSnoc(ws[..i - 1], ws[i - 1]);
      RowSum(Val(ws[..i - 1]), ws[i - 1], q, Val(bs));
      i := i + 1;
    }
    assert ws[..aw] == ws;
  }

  lemma RowSum(u: int, x: int, q: int, vb: int)
    ensures u * vb + x * vb * q == (u + x * q) * vb
  {
  }

  /** Extending the multiplied prefix of b by limb j. */
  lemma ProductRow(bs: seq<limb>, j: nat, x: int, e: nat)
    requires j < |bs|
    ensures x * Val(bs[..j + 1]) * Pow(65536, e)
         == x * Val(bs[..j]) * Pow(65536, e) + (x * bs[j]) * Pow(65536, e + j)
    ensures Pow(65536, e + j + 1) == 65536 * Pow(65536, e + j)
  {
    assert bs[..j + 1] == bs[..j] + [bs[j]];
    ValSnoc(bs[..j], bs[j]);
    PowAdd(65536, e, j);
    RowWeight(x, bs[j], Val(bs[..j]), Pow(65536, e), Pow(65536, j));
  }

  // ---- Shifting and reduction ----

  lemma ShiftWeight(v: int, s: int, x: int, c: int, p: int, u: int, u0: int)
    requires v == x * s + c && u + c * p == s * u0
    ensures (u + (v % 65536) * p) + (v / 65536) * (65536 * p) == s * (u0 + x * p)
  {
    var h, l := v / 65536, v % 65536;
    assert l * p + h * (65536 * p) == (l + 65536 * h) * p;
    assert (x * s + c) * p == s * (x * p) + c * p;
  }

  lemma ShiftStep(x: limb, s: nat, c: nat)
    requires c < s <= 65536
    ensures 0 <= x * s + c < 0x1_0000_0000 && (x * s + c) / 65536 < s
    ensures x == 0 ==> (x * s + c) / 65536 == 0
  {
    MulLe(x, 65535, s);
    MulLe(0, x, s);
  }

  lemma ShiftExtend(u: seq<limb>, w0: seq<limb>, s: nat, c: nat)
    requires |u| < |w0| && c < s <= 65536
    requires Val(u) + c * Pow(65536, |u|) == s * Val(w0[..|u|])
    ensures var v := w0[|u|] * s + c;
      0 <= v && v / 65536 < s && (w0[|u|] == 0 ==> v / 65536 == 0) &&
      Val(u + [v % 65536]) + (v / 65536) * Pow(65536, |u| + 1) == s * Val(w0[..|u| + 1])
  {
    hide *;
    var k := |u|;
    var v := w0[k] * s + c;
    ShiftStep(w0[k], s, c);
    ShiftWeight(v, s, w0[k], c, Pow(65536, k), Val(u), Val(w0[..k]));
    ValSnoc(u, v % 65536);
    ValSnoc(w0[..k], w0[k]);
    assert w0[..k + 1] == w0[..k] + [w0[k]];
    PowAdd(65536, 1, k);
    Pow65536();
  }

  /** a shifted left by n bits, in a[0] + n/16 + 1 limbs. */
  method BnShiftLeft(a: array<limb>, n: int) returns (r: array<limb>)
    requires IsBn(a) && 0 <= n && a[0] as int + n / 16 + 1 <= 32766
    ensures fresh(r) && IsBn(r) && r[0] as int == a[0] as int + n / 16 + 1
    ensures BnVal(r) == BnVal(a) * Pow(2, n)
  {
    hide Pow, Val;
    var words, bits := n / 16, n % 16;
    var aw: int := a[0];
    var rw := aw + words + 1;
    r := BnAlloc(rw);
    var i := 1;
    while i <= aw
      invariant 1 <= i <= aw + 1
      invariant IsBn(r) && r[0] == rw
      invariant forall k :: 1 <= k <= rw ==> r[k] == if words < k < i + words then a[k - words] else 0
    {
      r[i + words] := a[i];
      i := i + 1;
    }
    ghost var ws, w0 := a[1..], r[1..];
    assert w0 == (w0[..words] + ws) + [0];
    WordShift(w0[..words], ws);
    ShiftParts(Val(ws), words, bits);
    ghost var s := Pow(2, bits);
    if bits > 0 {
      var carry := 0;
      i := words + 1;
      ValZeros(w0[..words]);
      while i <= rw
        invariant words + 1 <= i <= rw + 1
        invariant IsBn(r) && r[0] == rw
        invariant 0 <= carry < s && (i == rw + 1 ==> carry == 0)
        invariant Val(r[1..][..i - 1]) + carry * Pow(65536, i - 1) == s * Val(w0[..i - 1])
        invariant forall k :: i <= k <= rw ==> r[k] == w0[k - 1]
      {
        var x: int := r[i];
        // the low bits of the shifted limb are clear, so the disjunction adds
        var v := x * Pow(2, bits) + carry;
        ghost var u := r[1..][..i - 1];
        ShiftExtend(u, w0, s, carry);
        r[i] := v % 65536;
        carry := v / 65536;
        assert r[1..][..i] == u + [v % 65536];
        i := i + 1;
      }
      assert r[1..][..rw] == r[1..] && w0[..rw] == w0;
    } else {
      Bases(2);
    }
  }

  lemma ShiftParts(v: nat, words: nat, bits: nat)
    requires bits < 16
    ensures 0 < Pow(2, bits) <= 65536
    ensures Pow(2, bits) * (v * Pow(65536, words)) == v * Pow(2, 16 * words + bits)
  {
    hide *;
    Pow2To16();
    PowGrows(2, bits, 16);
    PowPos(2, bits);
    PowOfPow(words);
    PowAdd(2, 16 * words, bits);
    MulAssoc(v, Pow(65536, words), Pow(2, bits));
  }

  lemma WordShift(z: seq<limb>, ws: seq<limb>)
    requires forall k :: 0 <= k < |z| ==> z[k] == 0
    ensures Val((z + ws) + [0]) == Val(ws) * Pow(65536, |z|)
  {
    hide *;
    ValZeros(z);
    ValConcat(z, ws);
    ValSnoc(z + ws, 0);
  }

  /** r -= s, limb by limb with a borrow; s may have more limbs than r. */
  method BnSubInPlace(r: array<limb>, s: array<limb>)
    requires IsBn(r) && IsBn(s) && r != s && r[0] <= 32766 && s[0] <= 32766
    requires BnVal(s) <= BnVal(r)
    modifies r
    ensures IsBn(r) && r[0] == old(r[0])
    ensures BnVal(r) == old(BnVal(r)) - BnVal(s)
  {
    hide Pow, Val;
    var borrow := 0;
    var rw: int, sw: int := r[0], s[0];
    var maxw := if rw > sw then rw else sw;
    ghost var r0 := r[1..];
    ghost var s0 := Padded(s[1..], maxw)[..rw];
    SubFits(r0, Padded(s[1..], maxw));
    Bases(2);
    var i := 1;
    while i <= maxw
      invariant 1 <= i <= maxw + 1
      invariant IsBn(r) && r[0] == rw && (borrow == 0 || borrow == 1)
      invariant i <= rw + 1 ==>
        Val(r[1..][..i - 1]) + Val(s0[..i - 1]) == Val(r0[..i - 1]) + borrow * Pow(65536, i - 1)
      invariant i >= rw + 1 ==> Val(r[1..]) + Val(s0) == Val(r0)
      invariant forall k :: i <= k <= rw ==> r[k] == r0[k - 1]
    {
      var rv: int := if i <= rw then r[i] else 0;
      var sv: int := if i <= sw then s[i] else 0;
      var sub := (rv - sv - borrow) % 0x1_0000_0000;
      if i <= rw {
        ghost var u := r[1..][..i - 1];
        SubExtend(u, r0, s0, borrow, sub);
        r[i] := sub % 65536;
        assert r[1..][..i] == u + [sub % 65536];
      }
      borrow := (sub / 65536) % 2;
      i := i + 1;
      if i == rw + 1 {
        assert r[1..][..rw] == r[1..] && s0[..rw] == s0 && r0[..rw] == r0;
        ValBound(r[1..]);
        NoBorrow(Val(r[1..]), Val(s0), Val(r0), borrow, Pow(65536, rw));
      }
    }
  }

  lemma SubExtend(u: seq<limb>, r0: seq<limb>, s0: seq<limb>, borrow: int, sub: int)
    requires |u| < |r0| == |s0| && 0 <= borrow <= 1
    requires Val(u) + Val(s0[..|u|]) == Val(r0[..|u|]) + borrow * Pow(65536, |u|)
    requires sub == (r0[|u|] as int - s0[|u|] as int - borrow) % 0x1_0000_0000
    ensures Val(u + [sub % 65536]) + Val(s0[..|u| + 1])
         == Val(r0[..|u| + 1]) + ((sub / 65536) % 2) * Pow(65536, |u| + 1)
  {
    hide *;
    var k := |u|;
    ValSnoc(u, sub % 65536);
    ValSnoc(s0[..k], s0[k]);
    ValSnoc(r0[..k], r0[k]);
    assert s0[..k + 1] == s0[..k] + [s0[k]] && r0[..k + 1] == r0[..k] + [r0[k]];
    PowAdd(65536, 1, k);
    Pow65536();
    SubWeight(r0[k], s0[k], borrow, sub, Pow(65536, k));
  }

  lemma NoBorrow(v: nat, s: nat, r: nat, borrow: nat, p: nat)
    requires v + s == r + borrow * p && v < p && s <= r && borrow <= 1
    ensures borrow == 0
  {
    if borrow == 1 {
      MulSucc(0, p);
    }
  }

  lemma SubWeight(rv: int, sv: int, borrow: int, sub: int, p: int)
    requires 0 <= rv < 65536 && 0 <= sv < 65536 && 0 <= borrow <= 1
    requires sub == (rv - sv - borrow) % 0x1_0000_0000
    ensures (sub % 65536) * p + sv * p + borrow * p == rv * p + ((sub / 65536) % 2) * (65536 * p)
  {
    var out, b := sub % 65536, (sub / 65536) % 2;
    assert out + sv + borrow == rv + b * 65536;
    assert out * p + sv * p + borrow * p == (out + sv + borrow) * p;
    assert (rv + b * 65536) * p == rv * p + b * (65536 * p);
  }

  /** The limbs of s beyond those of r are zero when s is no larger than r. */
  lemma SubFits(r: seq<limb>, s: seq<limb>)
    requires |r| <= |s| && Val(s) <= Val(r)
    ensures Val(s[..|r|]) == Val(s)
  {
    ValBound(r);
    forall k | |r| <= k < |s| ensures s[k] == 0 {
      ValHighZero(s, |r|, k);
    }
    ValTrim(s, |r|);
  }

  /** Aligning the top bits of m with those of r overshoots by at most one position. */
  lemma AlignBits(r: nat, m: nat, rb: nat, mb: nat)
    requires 0 < m <= r && rb > 0 && mb > 0
    requires r < Pow(2, rb) && Pow(2, rb - 1) <= r && m < Pow(2, mb) && Pow(2, mb - 1) <= m
    ensures mb <= rb
    ensures rb == mb ==> m * Pow(2, 0) <= r
    ensures mb < rb ==> m * Pow(2, rb - mb - 1) <= r
  {
    hide *;
    Bases(2);
    if rb < mb {
      PowGrows(2, rb, mb - 1);
    } else if mb < rb {
      PowAdd(2, mb, rb - mb - 1);
      MulLe(m, Pow(2, mb), Pow(2, rb - mb - 1));
    }
  }

  lemma SubtractMultiple(a: nat, q: nat, m: nat, r: nat, r': nat, t: nat)
    requires m > 0 && t > 0 && a == q * m + r && r' == r - m * t
    ensures a == (q + t) * m + r' && r' < r
  {
    MulLe(1, t, m);
    assert (q + t) * m == q * m + m * t;
  }

  lemma ValPositive(w: seq<limb>)
    requires Val(w) > 0
    ensures |w| > 0
  {
  }

  /** The first words limbs of b, in a number of their own. */
  method BnTake(b: array<limb>, words: int) returns (r: array<limb>)
    requires IsBn(b) && 0 <= words <= b[0]
    ensures fresh(r) && IsBn(r) && r[0] == words && r[1..] == b[1..][..words]
  {
    r := BnAlloc(words);
    forall k | 1 <= k < r.Length {
      r[k] := b[k];
    }
  }

  /** One trial subtraction: m shifted up to align with r, or one position less. */
  method BnReduce(r: array<limb>, m: array<limb>) returns (ghost t: nat)
    requires IsBn(r) && IsBn(m) && r != m && r[0] <= MAX_LIMBS && m[0] <= MAX_LIMBS
    requires 0 < BnVal(m) <= BnVal(r)
    modifies r
    ensures IsBn(r) && r[0] == old(r[0])
    ensures t > 0 && BnVal(r) == old(BnVal(r)) - BnVal(m) * t
  {
    hide Pow, Val;
    var rb := BnBits(r);
    var mb := BnBits(m);
    AlignBits(BnVal(r), BnVal(m), rb, mb);
    var shift := rb - mb;
    if shift < 0 {
      assert false;
    }
    var ms := BnShiftLeft(m, shift);
    var above := BnCmp(ms, r);
    if above > 0 {
      if shift == 0 {
        assert false;
      }
      shift := shift - 1;
      ms := BnShiftLeft(m, shift);
    }
    PowPos(2, shift);
    t := Pow(2, shift);
    BnSubInPlace(r, ms);
  }

  /** The remainder by trial subtraction of shifted moduli. */
  method BnMod(a: array<limb>, m: array<limb>) returns (r: array<limb>)
    requires IsBn(a) && IsBn(m) && a[0] <= MAX_LIMBS && m[0] <= MAX_LIMBS
    requires BnVal(m) > 0
    ensures IsBn(r) && BnVal(r) == BnVal(a) % BnVal(m)
    ensures r[0] <= m[0] && r[0] <= a[0]
  {
    hide Pow, Val;
    ghost var mod := BnVal(m);
    ValPositive(m[1..]);
    var mw := m[0];
    while mw > 1 && m[mw] == 0
      invariant 1 <= mw <= m[0]
      invariant forall k :: mw < k <= m[0] ==> m[k] == 0
    {
      mw := mw - 1;
    }
    ValTrim(m[1..], mw);
    ValBound(m[1..][..mw]);
    r := BnTake(a, a[0]);
    assert r[1..] == a[1..];
    ghost var q: nat := 0;
    var c := BnCmp(r, m);
    while c >= 0
      invariant IsBn(r) && fresh(r) && r[0] == a[0]
      invariant c >= 0 <==> BnVal(r) >= mod
      invariant BnVal(a) == q * mod + BnVal(r)
      decreases BnVal(r)
    {
      ghost var before := BnVal(r);
      ghost var t := BnReduce(r, m);
      SubtractMultiple(BnVal(a), q, mod, before, BnVal(r), t);
      q := q + t;
      c := BnCmp(r, m);
    }
    DivModUnique(BnVal(a), q, mod, BnVal(r));
    if r[0] > mw {
      TrimBelow(r[1..], mw);
      r := BnTake(r, mw);
    }
  }

  lemma TrimBelow(w: seq<limb>, n: nat)
    requires n <= |w| && Val(w) < Pow(65536, n)
    ensures Val(w[..n]) == Val(w)
  {
    forall k | n <= k < |w| ensures w[k] == 0 {
      ValHighZero(w, n, k);
    }
    ValTrim(w, n);
  }

  // ---- Modular exponentiation ----

  /** What square-and-multiply leaves: base^exp mod m, except that an exponent of zero
      leaves the initial 1 unreduced. */
  function PowMod(base: nat, exp: nat, m: nat): nat
    requires m > 0
  {
    if exp == 0 then 1 else Pow(base, exp) % m
  }

  lemma PowModExact(base: nat, exp: nat, m: nat)
    requires m > 0
    ensures PowMod(base, exp, m) == Pow(base, exp) % m <==> exp > 0 || m > 1
  {
    if exp == 0 && m > 1 {
      DivModUnique(1, 0, m, 1);
    }
  }

  /** base^(2e) mod m, and base^(2e+1) mod m, from base^e mod m. */
  lemma SquareStep(base: nat, e: nat, m: nat, x: nat)
    requires m > 0 && x % m == Pow(base, e) % m
    ensures (x * x) % m == Pow(base, 2 * e) % m
    ensures forall y: nat :: y % m == Pow(base, 2 * e) % m ==> (y * base) % m == Pow(base, 2 * e + 1) % m
  {
    hide *;
    ModMul(x, x, m);
    ModMul(Pow(base, e), Pow(base, e), m);
    PowAdd(base, e, e);
    PowAdd(base, 1, 2 * e);
    PowOne(base);
    forall y: nat | y % m == Pow(base, 2 * e) % m ensures (y * base) % m == Pow(base, 2 * e + 1) % m {
      ModMul(y, base, m);
      ModMul(Pow(base, 2 * e), base, m);
    }
  }

  lemma PowOne(base: nat)
    ensures Pow(base, 1) == base
  {
    assert Pow(base, 0) == 1;
  }

  /** Reading one bit more of the exponent. */
  lemma NextBit(e: nat, i: nat)
    ensures Pow(2, i) > 0 && Pow(2, i + 1) > 0
    ensures e / Pow(2, i) == 2 * (e / Pow(2, i + 1)) + (e / Pow(2, i)) % 2
  {
    hide *;
    PowPos(2, i);
    PowPos(2, i + 1);
    PowAdd(2, i, 1);
    PowOne(2);
    DivDiv(e, Pow(2, i), 2);
  }

  /** x * y mod m. */
  method BnMulMod(x: array<limb>, y: array<limb>, m: array<limb>) returns (r: array<limb>)
    requires IsBn(x) && IsBn(y) && IsBn(m) && x[0] as int + y[0] as int <= MAX_LIMBS && m[0] <= MAX_LIMBS
    requires BnVal(m) > 0
    ensures IsBn(r) && r[0] <= m[0]
    ensures BnVal(r) == (BnVal(x) * BnVal(y)) % BnVal(m) < BnVal(m)
    ensures BnVal(r) % BnVal(m) == (BnVal(x) * BnVal(y)) % BnVal(m)
  {
    hide Pow, Val;
    var tmp := BnMul(x, y);
    r := BnMod(tmp, m);
    RemainderOnce(BnVal(tmp), BnVal(m));
  }

  /** Square-and-multiply from the top bit of the exponent down. */
  method BnModPow(base: array<limb>, exp: array<limb>, mod: array<limb>) returns (result: array<limb>)
    requires IsBn(base) && IsBn(exp) && IsBn(mod)
    requires base[0] as int + mod[0] as int <= MAX_LIMBS && 2 * (mod[0] as int) <= MAX_LIMBS
    requires exp[0] <= MAX_LIMBS
    requires BnVal(mod) > 0
    ensures IsBn(result) && result[0] <= MAX_LIMBS
    ensures BnVal(result) == PowMod(BnVal(base), BnVal(exp), BnVal(mod))
  {
    hide Pow, Val;
    ghost var b, e, m := BnVal(base), BnVal(exp), BnVal(mod);
    ValPositive(mod[1..]);
    result := BnAlloc(1);
    result[1] := 1;
    assert result[1..] == [1];
    ValOne();
    var nbits := BnBits(exp);
    Bases(b);
    Bases(2);
    PowPos(2, nbits);
    DivModUnique(e, 0, Pow(2, nbits), e);
    var i := nbits - 1;
    while i >= 0
      invariant -1 <= i < nbits
      invariant IsBn(result) && result[0] <= mod[0]
      invariant Pow(2, i + 1) > 0
      invariant BnVal(result) % m == Pow(b, e / Pow(2, i + 1)) % m
      invariant if i == nbits - 1 then BnVal(result) == 1 else BnVal(result) < m
    {
      NextBit(e, i);
      SquareStep(b, e / Pow(2, i + 1), m, BnVal(result));
      result := BnMulMod(result, result, mod);
      var bit := BnBit(exp, i);
      if bit == 1 {
        result := BnMulMod(result, base, mod);
      }
      i := i - 1;
    }
    if nbits > 0 {
      RemainderSmall(BnVal(result), m);
    }
  }

  lemma ValOne()
    ensures Val([1]) == 1
  {
    ValSnoc([], 1);
    assert [] + [1] == [1];
  }

  lemma RemainderSmall(x: nat, m: nat)
    requires x < m
    ensures x % m == x
  {
  }

  lemma RemainderOnce(x: nat, m: nat)
    requires m > 0
    ensures 0 <= x % m < m && (x % m) % m == x % m
  {
    RemainderSmall(x % m, m);
  }

  // ---- Output ----

  /** Byte i of the number, counted from the least significant end. */
  lemma ByteOfLimb(w: seq<limb>, i: nat)
    ensures Pow(256, i) > 0
    ensures (Val(w) / Pow(256, i)) % 256
         == if i / 2 < |w| then (if i % 2 == 1 then w[i / 2] / 256 else w[i / 2] % 256) else 0
  {
    hide *;
    var k := i / 2;
    PowPos(256, i);
    PowOfPow256(k);
    PowAdd(256, 2 * k, i % 2);
    PowOne(256);
    Bases(256);
    if k < |w| {
      LimbSplit(w, k);
      ByteAt(Val(w), Val(w[..k]), Pow(65536, k), w[k], Val(w[k + 1..]));
    } else {
      ValBound(w);
      PowGrows(65536, |w|, k);
      PowGrows(256, 2 * k, i);
      DivModUnique(Val(w), 0, Pow(256, i), Val(w));
    }
  }

  /** The two bytes at weight p of a number with limb x there. */
  lemma ByteAt(v: nat, low: nat, p: nat, x: limb, high: nat)
    requires v == low + p * (x + high * 65536) && low < p
    ensures p * 256 > 0 && (v / p) % 256 == x % 256 && (v / (p * 256)) % 256 == x / 256
  {
    DivModUnique(v, x + high * 65536, p, low);
    DivDiv(v, p, 256);
    LimbBytes(x, high);
  }

  lemma LimbBytes(x: limb, high: nat)
    ensures (x + high * 65536) % 256 == x % 256
    ensures ((x + high * 65536) / 256) % 256 == x / 256
  {
    ModAddMultiple(x, high * 256, 256);
    ModAddMultiple(x / 256, high, 256);
  }

  /** out becomes the low-order bytes of the number, big-endian, zero-filled at the front. */
  method BnToBytes(b: array<limb>, out: array<byte>)
    requires IsBn(b) && b[0] <= 32766 && out.Length <= 32767
    modifies out
    ensures out[..] == BeBytes(BnVal(b), out.Length)
  {
    hide Pow, Val, BeBytes;
    var len := out.Length;
    forall k | 0 <= k < len {
      out[k] := 0;
    }
    ghost var w := b[1..];
    BytesNone(Val(w));
    assert out[len..] == [];
    var i := 0;
    while i < len
      invariant 0 <= i <= len
      invariant out[len - i..] == BeBytes(Val(w), i)
      invariant forall k :: 0 <= k < len - i ==> out[k] == 0
      invariant b[1..] == w && IsBn(b)
    {
      ByteOfLimb(w, i);
      var wi := i / 2 + 1;
      ghost var tail := out[len - i..];
      if wi <= b[0] {
        out[len - 1 - i] := if i % 2 == 1 then b[wi] / 256 else b[wi] % 256;
      }
      BytesOneMore(Val(w), i);
      assert out[len - 1 - i..] == [out[len - 1 - i]] + tail;
      i := i + 1;
    }
    assert out[0..] == out[..];
  }

  lemma BytesNone(v: nat)
    ensures BeBytes(v, 0) == []
  {
  }

  /** A longer encoding has one more byte in front. */
  lemma {:induction false} BytesOneMore(v: nat, i: nat)
    ensures Pow(256, i) > 0
    ensures BeBytes(v, i + 1) == [(v / Pow(256, i)) % 256] + BeBytes(v, i)
  {
    PowPos(256, i);
    if i > 0 {
      BytesOneMore(v / 256, i - 1);
      DivDiv(v, 256, Pow(256, i - 1));
    } else {
      assert BeBytes(v / 256, 0) == [];
    }
  }
}
