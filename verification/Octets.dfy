/** Bytes as bit vectors and as numbers. */
module Octets {
  import Powers

  /** The low-order byte of v: the C cast to `unsigned char`. */
  function Byte(v: nat): bv8
  {
    (v % 256) as bv8
  }

  lemma Successor(b: bv8)
    requires b != 0xFF
    ensures (b + 1) as int == b as int + 1
  {
  }

  lemma Largest(b: bv8)
    requires b as int < 255
    ensures b != 0xFF
  {
  }

  lemma Back(b: bv8)
    ensures (b as int) as bv8 == b
  {
  }

  /** Every number below 256 is that of some byte. */
  lemma {:induction false} ByteFor(n: nat) returns (b: bv8)
    requires n < 256
    ensures b as int == n
  {
    if n == 0 {
      b := 0;
    } else {
      b := ByteFor(n - 1);
      Largest(b);
      Successor(b);
      b := b + 1;
    }
  }

  lemma NumberOf(n: nat)
    requires n < 256
    ensures (n as bv8) as int == n
  {
    var b := ByteFor(n);
    Back(b);
  }

  lemma ByteNumber(v: nat)
    ensures Byte(v) as int == v % 256
  {
    NumberOf(v % 256);
  }

  lemma Small(v: nat)
    requires v < 256
    ensures Byte(v) == v as bv8
  {
  }

  lemma ByteOfNumber(b: bv8)
    ensures Byte(b as int) == b
  {
    Back(b);
    Small(b as int);
  }

  /** The value of a byte string, high-order byte first. */
  function Number(s: seq<bv8>): nat
  {
    if s == [] then 0 else Number(s[..|s| - 1]) * 256 + s[|s| - 1] as nat
  }

  lemma NoBytes()
    ensures Number([]) == 0
  {
  }

  /** If s is v / 256 modulo m, then s and the low byte of v are v modulo 256 m. */
  lemma NumberNext(s: seq<bv8>, v: nat, m: nat)
    requires m > 0 && Number(s) == (v / 256) % m
    ensures Number(s + [Byte(v)]) == v % (256 * m)
  {
    hide Byte;
    ByteNumber(v);
    assert (s + [Byte(v)])[..|s|] == s;
    DigitBelow(v, m);
  }

  lemma DigitBelow(v: nat, m: nat)
    requires m > 0
    ensures ((v / 256) % m) * 256 + v % 256 == v % (256 * m)
  {
    var q, r := (v / 256) / m, (v / 256) % m;
    assert v == (q * m + r) * 256 + v % 256;
    assert v == q * (256 * m) + (r * 256 + v % 256);
    assert 0 <= r * 256 + v % 256 < 256 * m;
    Powers.DivModUnique(v, q, 256 * m, r * 256 + v % 256);
  }

  /** The same for the byte of weight d at index k. */
  lemma NumberAt(b: seq<bv8>, k: nat, v: nat, d: nat, m: nat)
    requires k < |b| && d > 0 && m > 0 && b[k] == Byte(v / d) && Number(b[..k]) == (v / (d * 256)) % m
    ensures Number(b[..k + 1]) == (v / d) % (256 * m)
  {
    hide Byte, Number;
    Powers.DivDiv(v, d, 256);
    NumberNext(b[..k], v / d, m);
    assert b[..k + 1] == b[..k] + [b[k]];
  }
}
