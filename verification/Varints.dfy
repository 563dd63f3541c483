/** Base 128 varints as the Protocol Buffers Encoding specification defines them (section
    "Base 128 Varints"), over unbounded naturals: the reference that the word-level readers
    and writers are compared with. */
module Varints {
  import opened Wrappers
  import opened Bits

  /** A varint found in a buffer: its value and the position just after it. */
  datatype Found = Found(value: nat, end: nat)

  function Varint(n: nat): (b: bytes)
    ensures |b| >= 1
  {
    if n > 127 then [n % 128 + 128] + Varint(n / 128) else [n]
  }

  /** The value of the varint that starts at `pos`, of whatever length. */
  function Parse(buf: bytes, pos: nat): (r: Option<Found>)
    ensures r.Some? ==> pos < r.value.end <= |buf|
    decreases |buf| - pos
  {
    if pos >= |buf| then None
    else if buf[pos] < 128 then Some(Found(buf[pos], pos + 1))
    else match Parse(buf, pos + 1)
      case None => None
      case Some(f) => Some(Found(buf[pos] - 128 + 128 * f.value, f.end))
  }

  /** `b` stands in `buf` at `pos`. */
  ghost predicate At(buf: bytes, pos: nat, b: bytes) {
    pos + |b| <= |buf| && buf[pos..pos + |b|] == b
  }

  lemma AtBound(buf: bytes, pos: nat, b: bytes)
    requires At(buf, pos, b)
    ensures pos + |b| <= |buf| && buf[pos..pos + |b|] == b
  {
  }

  lemma AtConcat(buf: bytes, pos: nat, a: bytes, b: bytes)
    ensures At(buf, pos, a + b) <==> At(buf, pos, a) && At(buf, pos + |a|, b)
  {
    if At(buf, pos, a + b) {
      assert a == (a + b)[..|a|] && b == (a + b)[|a|..];
      assert buf[pos..pos + |a|] == buf[pos..pos + |a + b|][..|a|];
      assert buf[pos + |a|..pos + |a| + |b|] == buf[pos..pos + |a + b|][|a|..];
    }
    if At(buf, pos, a) && At(buf, pos + |a|, b) {
      assert buf[pos..pos + |a + b|] == buf[pos..pos + |a|] + buf[pos + |a|..pos + |a| + |b|];
    }
  }

  lemma AtIndex(buf: bytes, pos: nat, b: bytes, i: nat)
    requires At(buf, pos, b) && i < |b|
    ensures buf[pos + i] == b[i]
  {
    assert buf[pos..pos + |b|][i] == b[i];
  }

  /** Parsing undoes printing, at any position and before any suffix. */
  lemma {:induction false} ParseVarint(n: nat, buf: bytes, pos: nat)
    requires At(buf, pos, Varint(n))
    ensures Parse(buf, pos) == Some(Found(n, pos + |Varint(n)|))
    decreases n
  {
    AtIndex(buf, pos, Varint(n), 0);
    if n > 127 {
      AtConcat(buf, pos, [n % 128 + 128], Varint(n / 128));
      ParseVarint(n / 128, buf, pos + 1);
    }
  }

  /** The number whose digits to base 128 are the low seven bits of the bytes, lowest first. */
  function Septets(b: bytes): nat {
    if b == [] then 0 else b[0] % 128 + 128 * Septets(b[1..])
  }

  /** Seven bits in each byte, lowest first, the top bit set in all but the last, and no more bytes than
      need be. */
  lemma {:induction false} VarintShape(n: nat)
    ensures var b := Varint(n);
      && Septets(b) == n
      && (forall i | 0 <= i < |b| :: b[i] >= 128 <==> i + 1 < |b|)
      && (|b| > 1 ==> b[|b| - 1] > 0)
  {
    if n > 127 {
      var rest := Varint(n / 128);
      VarintShape(n / 128);
      assert Varint(n)[1..] == rest;
    } else {
      assert Varint(n)[1..] == [];
    }
  }

  /** A varint of n takes at most k bytes exactly when n has at most 7k bits. */
  lemma {:induction false} VarintLength(n: nat, k: nat)
    requires k >= 1
    ensures |Varint(n)| <= k <==> n < Pow2(7 * k)
    decreases k
  {
    var p := Pow2(7 * (k - 1));
    Pow2Seven(7 * (k - 1));
    if n > 127 {
      if k > 1 {
        VarintLength(n / 128, k - 1);
      }
      assert n < 128 * p <==> n / 128 < p;
    }
  }

  lemma Pow2Seven(k: nat)
    ensures Pow2(k + 7) == 128 * Pow2(k)
  {
    assert Pow2(k + 7) == 2 * Pow2(k + 6) == 4 * Pow2(k + 5);
    assert Pow2(k + 5) == 2 * Pow2(k + 4) == 4 * Pow2(k + 3);
    assert Pow2(k + 3) == 2 * Pow2(k + 2) == 4 * Pow2(k + 1);
  }

  lemma SevenTable()
    ensures Pow2(7) == 0x80 && Pow2(14) == 0x4000 && Pow2(21) == 0x20_0000 && Pow2(28) == 0x1000_0000
    ensures Pow2(35) == 0x8_0000_0000 && Pow2(42) == 0x400_0000_0000 && Pow2(49) == 0x2_0000_0000_0000
    ensures Pow2(56) == 0x100_0000_0000_0000 && Pow2(63) == 0x8000_0000_0000_0000
    ensures Pow2(70) == 0x40_0000_0000_0000_0000
  {
    Pow2Seven(7);
    Pow2Seven(14);
    Pow2Seven(21);
    Pow2Seven(28);
    Pow2Seven(35);
    Pow2Seven(42);
    Pow2Seven(49);
    Pow2Seven(56);
    Pow2Seven(63);
  }

  lemma WordPowers()
    ensures Pow2(31) == TWO_31 && Pow2(32) == TWO_32
  {
    SevenTable();
    assert Pow2(29) == 2 * Pow2(28) && Pow2(30) == 2 * Pow2(29) && Pow2(31) == 2 * Pow2(30) && Pow2(32) == 2 * Pow2(31);
  }

  /** Words take at most five bytes; double words at most ten, and exactly ten with the top
      bit set. */
  lemma VarintSizes(n: nat)
    ensures n < TWO_32 ==> |Varint(n)| <= 5
    ensures n < TWO_64 ==> |Varint(n)| <= 10
    ensures TWO_64 / 2 <= n < TWO_64 ==> |Varint(n)| == 10
  {
    VarintLength(n, 5);
    VarintLength(n, 9);
    VarintLength(n, 10);
    SevenTable();
  }

  /** How much of a buffer a parsed varint depends on: it is the varint of its groups. */
  lemma {:induction false} ParseBound(buf: bytes, pos: nat)
    requires Parse(buf, pos).Some?
    ensures Parse(buf, pos).value.value < Pow2(7 * (Parse(buf, pos).value.end - pos))
    decreases |buf| - pos
  {
    var f := Parse(buf, pos).value;
    Pow2Seven(7 * (f.end - pos - 1));
    if buf[pos] >= 128 {
      ParseBound(buf, pos + 1);
    }
  }

  // The operators of the word-level code, as arithmetic.

  lemma LowGroup(v: nat)
    ensures And(v, 127) == v % 128
    ensures Or(And(v, 127), 128) == v % 128 + 128
  {
    assert Pow2(7) == 128;
    AndMask(v, 7);
    OrDisjoint(v % 128, 1, 7);
  }
}
