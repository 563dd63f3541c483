/** `longToByte` and `byteToLong` of the storage layer's path utilities, in Java's 64-bit arithmetic. */
module LongBytes {
  import opened Bits
  import opened BufferInts
  import opened Wrappers

  type jbyte = b: int | -128 <= b < 128
  type long = v: int | -TWO_63 <= v < TWO_63

  const TWO_63: int := 0x8000_0000_0000_0000

  /** Java's remainder takes the sign of the dividend. */
  function Rem(a: int, m: nat): int
    requires m > 0
  {
    if a >= 0 then a % m else -((-a) % m)
  }

  /** `(byte) v`. */
  function ToByte(v: int): jbyte {
    var u := v % 256;
    if u >= 128 then u - 256 else u
  }

  /** The low 64 bits read as a `long`. */
  function ToLong(w: nat): long {
    var u := w % TWO_64;
    if u >= TWO_63 then u - TWO_64 else u
  }

  /** `(long) b & 0xff`. */
  function Octet(b: jbyte): nat {
    And(if b < 0 then b + TWO_64 else b, 0xff)
  }

  /** `v << k` on 64 bits. */
  function Shl(v: nat, k: nat): nat {
    v * Pow2(k) % TWO_64
  }

  // ---- octets ----

  lemma RemByte(v: int)
    ensures ToByte(Rem(v, 256)) == ToByte(v)
  {
    if v < 0 {
      ShiftMod(Rem(v, 256), -((-v) / 256));
    }
  }

  lemma OctetByte(b: jbyte)
    ensures Octet(b) == if b < 0 then b + 256 else b
  {
    hide And;
    AndByte(if b < 0 then b + TWO_64 else b);
    if b < 0 {
      ShiftMod(b + 256, 0xff_ffff_ffff_ffff);
    }
  }

  lemma PowTable()
    ensures Pow2(64) == TWO_64 == Pow256(8) && TWO_63 == 128 * Pow256(7)
  {
    assert Pow2(8) == 256 by { assert Pow2(4) == 16; }
    PowBytes(8);
    assert Pow256(4) == 0x1_0000_0000 by { assert Pow256(2) == 0x1_0000; }
    assert Pow256(6) == 0x1_0000_0000_0000;
    assert Pow256(7) == 0x100_0000_0000_0000;
  }

  lemma {:induction false} PowBytes(n: nat)
    ensures Pow2(8 * n) == Pow256(n)
  {
    if n > 0 {
      PowBytes(n - 1);
      PowByte(8 * (n - 1));
    }
  }

  lemma PowByte(k: nat)
    ensures Pow2(k + 8) == 256 * Pow2(k)
  {
    assert Pow2(k + 4) == 16 * Pow2(k) by {
      assert Pow2(k + 2) == 4 * Pow2(k);
    }
    assert Pow2(k + 6) == 4 * Pow2(k + 4);
  }

  lemma {:induction false} PowUp(k: nat, m: nat)
    requires k <= m
    ensures Pow2(k) <= Pow2(m)
    decreases m - k
  {
    if k < m {
      PowUp(k + 1, m);
    }
  }

  lemma ShlSmall(x: nat, k: nat)
    requires x < 256 && k <= 56
    ensures Shl(x, k) == x * Pow2(k)
  {
    hide Pow2;
    PowByte(k);
    PowUp(k + 8, 64);
    PowTable();
    MulMono(0, x, Pow2(k));
    MulMono(x, 255, Pow2(k));
  }

  /** Joining an octet to those above it. */
  lemma OrField(h: nat, x: nat, k: nat)
    requires x < 256
    ensures Or(h * Pow2(k + 8), x * Pow2(k)) == (256 * h + x) * Pow2(k)
  {
    hide Or, Pow2;
    PowByte(k);
    MulMono(x, 255, Pow2(k));
    OrDisjoint(x * Pow2(k), h, k + 8);
    OrCommutes(x * Pow2(k), h * Pow2(k + 8));
    assert h * (256 * Pow2(k)) == 256 * h * Pow2(k);
  }

  /** The bytes of the two's complement representation as Java holds them, the highest first. */
  ghost function JavaBytes(v: int, n: nat): seq<jbyte> {
    Cast(Big(v, n))
  }

  ghost function Cast(b: bytes): seq<jbyte> {
    seq(|b|, i requires 0 <= i < |b| => ToByte(b[i]))
  }

  ghost function Octets(b: seq<jbyte>): (r: bytes)
    ensures |r| == |b|
  {
    seq(|b|, i requires 0 <= i < |b| => if b[i] < 0 then b[i] + 256 else b[i] as int)
  }

  lemma CastInverse(b: bytes, j: seq<jbyte>)
    ensures Octets(Cast(b)) == b && Cast(Octets(j)) == j
  {
  }

  // ---- the conversions ----

  method LongToByte(number: long) returns (b: array<jbyte>)
    ensures fresh(b) && b[..] == JavaBytes(number, 8)
  {
    hide Rem, ToByte, JavaBytes, Shifted;
    b := new jbyte[8];
    var i, rest: int := 7, number;
    NoBytes(number);
    while i >= 0
      invariant -1 <= i <= 7 && rest == Shifted(number, 7 - i)
      invariant b[i + 1..] == JavaBytes(number, 7 - i)
    {
      MoreBytes(number, 7 - i);
      RemByte(rest);
      ghost var done := b[i + 1..];
      b[i] := ToByte(Rem(rest, 256));
      assert b[i..] == [b[i]] + done;
      rest := rest / 256;
      i := i - 1;
    }
    assert i == -1;
    assert b[..] == b[i + 1..];
  }

  lemma NoBytes(v: int)
    ensures JavaBytes(v, 0) == [] && Shifted(v, 0) == v
  {
  }

  lemma MoreBytes(v: int, k: nat)
    ensures JavaBytes(v, k + 1) == [ToByte(Shifted(v, k))] + JavaBytes(v, k)
    ensures Shifted(v, k) / 256 == Shifted(v, k + 1)
  {
    hide Big;
    BigPush(v, k);
    assert ToByte(Digit(v, k)) == ToByte(Shifted(v, k));
    DivDiv(v, Pow256(k), 256);
  }

  /** The `long` of the first eight bytes; fewer make Java throw. */
  function ByteToLong(b: seq<jbyte>): (r: Option<long>) {
    if |b| < 8 then None
    else
      Some(ToLong(
        Or(Or(Or(Or(Or(Or(Or(
          Shl(Octet(b[0]), 56), Shl(Octet(b[1]), 48)), Shl(Octet(b[2]), 40)), Shl(Octet(b[3]), 32)), Shl(Octet(b[4]), 24)),
          Shl(Octet(b[5]), 16)), Shl(Octet(b[6]), 8)), Octet(b[7]))))
  }

  // ---- the value of the bytes ----

  lemma UnsignedNext(b: bytes, k: nat)
    requires k < |b|
    ensures Unsigned(Reversed(b[..k + 1])) == 256 * Unsigned(Reversed(b[..k])) + b[k]
  {
    assert b[..k + 1] == b[..k] + [b[k]];
    ReversedPush(b[..k], b[k]);
    assert ([b[k]] + Reversed(b[..k]))[1..] == Reversed(b[..k]);
  }

  /** One link of the chain: the octets so far, with room for `k` more bits. */
  lemma Link(b: seq<jbyte>, n: nat, k: nat, acc: nat)
    requires n < |b| && k <= 48 && acc == Unsigned(Reversed(Octets(b)[..n])) * Pow2(k + 8)
    ensures Or(acc, Shl(Octet(b[n]), k)) == Unsigned(Reversed(Octets(b)[..n + 1])) * Pow2(k)
  {
    hide Or, Pow2, Shl, Unsigned, Reversed;
    OctetByte(b[n]);
    UnsignedNext(Octets(b), n);
    ShlSmall(Octet(b[n]), k);
    OrField(Unsigned(Reversed(Octets(b)[..n])), Octet(b[n]), k);
  }

  lemma Chain(b: seq<jbyte>)
    requires |b| >= 8
    ensures ByteToLong(b) == Some(ToLong(Unsigned(Reversed(Octets(b)[..8]))))
  {
    hide Or, Pow2, Octets, Octet, Unsigned, Reversed, ToLong;
    var first := Shl(Octet(b[0]), 56);
    FirstLink(b);
    LastLink(b);
    var a1 := Or(first, Shl(Octet(b[1]), 48));
    Link(b, 1, 48, first);
    var a2 := Or(a1, Shl(Octet(b[2]), 40));
    Link(b, 2, 40, a1);
    var a3 := Or(a2, Shl(Octet(b[3]), 32));
    Link(b, 3, 32, a2);
    var a4 := Or(a3, Shl(Octet(b[4]), 24));
    Link(b, 4, 24, a3);
    var a5 := Or(a4, Shl(Octet(b[5]), 16));
    Link(b, 5, 16, a4);
    var a6 := Or(a5, Shl(Octet(b[6]), 8));
    Link(b, 6, 8, a5);
    Link(b, 7, 0, a6);
  }

  lemma FirstLink(b: seq<jbyte>)
    requires |b| >= 8
    ensures Shl(Octet(b[0]), 56) == Unsigned(Reversed(Octets(b)[..1])) * Pow2(56)
  {
    hide Pow2, Shl, Octet;
    OctetByte(b[0]);
    ShlSmall(Octet(b[0]), 56);
    UnsignedNext(Octets(b), 0);
    assert Unsigned(Reversed(Octets(b)[..0])) == 0;
  }

  lemma LastLink(b: seq<jbyte>)
    requires |b| >= 8
    ensures Shl(Octet(b[7]), 0) == Octet(b[7]) && Pow2(0) == 1
  {
    hide Shl, Octet;
    OctetByte(b[7]);
    ShlSmall(Octet(b[7]), 0);
  }

  lemma LongSigned(b: bytes)
    requires |b| == 8
    ensures ToLong(Unsigned(b)) == Signed(b)
  {
    hide Unsigned;
    UnsignedBound(b);
    PowTable();
  }

  /** `byteToLong` inverts `longToByte` on every long. */
  lemma LongInverse(v: long)
    ensures ByteToLong(JavaBytes(v, 8)) == Some(v)
  {
    hide Little, Reversed, ByteToLong, Octets, Cast, ToLong, Signed, Pow256;
    var b := JavaBytes(v, 8);
    SignedInverse(v, 8);
    CastInverse(Big(v, 8), b);
    assert Octets(b)[..8] == Octets(b) == Big(v, 8);
    ReversedTwice(Little(v, 8));
    Chain(b);
    LongSigned(Little(v, 8));
    PowTable();
  }

  /** `longToByte` inverts `byteToLong` on every array of eight bytes. */
  lemma BytesInverse(b: seq<jbyte>)
    requires |b| == 8
    ensures ByteToLong(b).Some? && JavaBytes(ByteToLong(b).value, 8) == b
  {
    hide Little, Reversed, ByteToLong, Octets, Cast, ToLong, Signed, Pow256;
    var r := Reversed(Octets(b));
    CastInverse([], b);
    Chain(b);
    assert Octets(b)[..8] == Octets(b);
    LongSigned(r);
    LittleInverse(r);
    ReversedTwice(Octets(b));
  }
}
