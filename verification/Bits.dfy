/** JavaScript's 32-bit operators, as functions on naturals.
    `And`, `Or` and `Xor` are defined bit by bit; the lemmas turn the masks and disjoint
    bit fields that the codecs use into remainders, quotients and sums. A shift by a literal
    number of places is a multiplication or a division by a power of two. */
module Bits {
  type byte = b: int | 0 <= b < 0x100
  type unit16 = u: int | 0 <= u < 0x1_0000
  type word = w: int | 0 <= w < 0x1_0000_0000
  type bytes = seq<byte>

  const TWO_31: int := 0x8000_0000
  const TWO_32: int := 0x1_0000_0000
  const TWO_64: int := 0x1_0000_0000_0000_0000

  function Pow2(k: nat): (p: nat)
    ensures p > 0
  {
    if k == 0 then 1 else 2 * Pow2(k - 1)
  }

  function And(a: nat, b: nat): nat {
    if a == 0 || b == 0 then 0
    else 2 * And(a / 2, b / 2) + (if a % 2 == 1 && b % 2 == 1 then 1 else 0)
  }

  function Or(a: nat, b: nat): nat {
    if a == 0 then b
    else if b == 0 then a
    else 2 * Or(a / 2, b / 2) + (if a % 2 == 1 || b % 2 == 1 then 1 else 0)
  }

  function Xor(a: nat, b: nat): nat {
    if a == 0 then b
    else if b == 0 then a
    else 2 * Xor(a / 2, b / 2) + (if a % 2 != b % 2 then 1 else 0)
  }

  /** `v >>> 0`: the residue of an integral number modulo 2^32. */
  function ToUint32(v: int): word { v % TWO_32 }

  /** `w | 0`: the word read as a signed 32-bit integer. */
  function ToInt32(w: word): int { if w >= TWO_31 then w - TWO_32 else w }

  /** `v >> 31`, seen as an unsigned word: the sign bit copied everywhere. */
  function SignMask(v: word): word { if v >= TWO_31 then 0xffff_ffff else 0 }

  lemma {:induction false} ModDouble(a: nat, p: nat)
    requires p > 0
    ensures a % (2 * p) == 2 * ((a / 2) % p) + a % 2
  {
    var h := a / 2;
    var q, r := h / p, h % p;
    assert h == q * p + r;
    assert a == 2 * h + a % 2;
    assert a == q * (2 * p) + (2 * r + a % 2) by {
      assert 2 * (q * p) == q * (2 * p);
    }
    DivUnique(a, 2 * p, q, 2 * r + a % 2);
  }

  lemma DivUnique(a: int, d: int, q: int, r: int)
    requires 0 <= r < d && a == q * d + r
    ensures a / d == q && a % d == r
  {
    var k := a / d - q;
    assert a == (a / d) * d + a % d;
    assert k * d == r - a % d by {
      assert (a / d - q) * d == (a / d) * d - q * d;
    }
    if k >= 1 {
      MulMono(1, k, d);
    } else if k <= -1 {
      MulMono(k, -1, d);
    }
  }

  lemma MulMono(a: int, b: int, d: int)
    requires a <= b && d >= 0
    ensures a * d <= b * d
  {
    assert (b - a) * d >= 0;
    assert (b - a) * d == b * d - a * d;
  }

  /** Masking with k ones keeps the k low bits. */
  lemma {:induction false} AndMask(a: nat, k: nat)
    ensures And(a, Pow2(k) - 1) == a % Pow2(k)
  {
    if k == 0 {
    } else if a == 0 {
      assert 0 % Pow2(k) == 0;
    } else {
      var p := Pow2(k - 1);
      AndMask(a / 2, k - 1);
      ModDouble(a, p);
      assert (2 * p - 1) / 2 == p - 1 && (2 * p - 1) % 2 == 1;
    }
  }

  /** Joining a field of k low bits with one above it is a sum. */
  lemma {:induction false} OrDisjoint(a: nat, b: nat, k: nat)
    requires a < Pow2(k)
    ensures Or(a, b * Pow2(k)) == a + b * Pow2(k)
  {
    if k > 0 && a != 0 && b != 0 {
      var p := Pow2(k - 1);
      var c := b * Pow2(k);
      assert c == 2 * (b * p) by { assert b * (2 * p) == 2 * (b * p); }
      assert c / 2 == b * p && c % 2 == 0;
      assert c != 0 by { MulMono(1, b, Pow2(k)); }
      OrDisjoint(a / 2, b, k - 1);
    }
  }

  /** The same with the high field written first. */
  lemma {:induction false} OrCommutes(a: nat, b: nat)
    ensures Or(a, b) == Or(b, a)
  {
    if a != 0 && b != 0 {
      OrCommutes(a / 2, b / 2);
    }
  }

  /** Flipping all of k bits complements the value. */
  lemma {:induction false} XorOnes(a: nat, k: nat)
    requires a < Pow2(k)
    ensures Xor(a, Pow2(k) - 1) == Pow2(k) - 1 - a
  {
    if k > 0 && a != 0 {
      var p := Pow2(k - 1);
      assert (2 * p - 1) / 2 == p - 1 && (2 * p - 1) % 2 == 1;
      XorOnes(a / 2, k - 1);
    }
  }

  /** A mask with a clear lowest bit only looks at the bits above it. */
  lemma AndDouble(a: nat, b: nat)
    ensures And(a, 2 * b) == 2 * And(a / 2, b)
  {
  }

  lemma AndFour(a: nat, b: nat)
    ensures And(a, 4 * b) == 4 * And(a / 4, b)
  {
    AndDouble(a, 2 * b);
    AndDouble(a / 2, b);
    assert a / 2 / 2 == a / 4;
  }

  lemma AndSixteen(a: nat, b: nat)
    ensures And(a, 16 * b) == 16 * And(a / 16, b)
  {
    AndFour(a, 4 * b);
    AndFour(a / 4, b);
    assert a / 4 / 4 == a / 16;
  }

  /** ToInt32 and ToUint32 are inverse on the signed 32-bit range. */
  lemma Int32Bits(v: int)
    requires -TWO_31 <= v < TWO_31
    ensures ToInt32(ToUint32(v)) == v
    ensures ToUint32(v) == if v < 0 then v + TWO_32 else v
  {
  }
}
