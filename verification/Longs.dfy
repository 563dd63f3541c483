/** 64-bit values carried as two words and worked on in place. */
module Longs {
  import opened Bits
  import opened Varints
  import opened Reading

  /** The number a pair of words stands for in two's complement. */
  function Signed(v: Long): (n: int)
    ensures -(TWO_64 / 2) <= n < TWO_64 / 2
  {
    if v.hi >= TWO_31 then v.Value() - TWO_64 else v.Value()
  }

  /** The words of a number, modulo 2^64. */
  function FromInt(n: int): (v: Long)
    ensures v.Value() == n % TWO_64
  {
    Long(n % TWO_64 % TWO_32, n % TWO_64 / TWO_32)
  }

  lemma SignedInverse(n: int)
    requires -(TWO_64 / 2) <= n < TWO_64 / 2
    ensures Signed(FromInt(n)) == n
  {
    var v := FromInt(n);
    if n < 0 {
      DivUnique(n, TWO_64, -1, n + TWO_64);
    } else {
      SmallMod(n, TWO_64);
    }
  }

  lemma FromSigned(v: Long)
    ensures FromInt(Signed(v)) == v
  {
    if v.hi >= TWO_31 {
      DivUnique(Signed(v), TWO_64, -1, v.Value());
    } else {
      SmallMod(v.Value(), TWO_64);
    }
    LongUnique(FromInt(Signed(v)), v);
  }

  /** Zig-zag on 64 bits, as the protocol defines it on numbers. */
  function ZigZagLong(v: Long): (z: Long)
    ensures z.Value() == ZigZag(Signed(v))
  {
    SmallMod(ZigZag(Signed(v)), TWO_64);
    FromInt(ZigZag(Signed(v)))
  }

  function ZigZagLongDecode(z: Long): Long {
    FromInt(ZigZagDecode(z.Value()))
  }

  lemma ZigZagLongInverse(v: Long)
    ensures ZigZagLongDecode(ZigZagLong(v)) == v
  {
    ZigZagInverse(Signed(v));
    FromSigned(v);
  }

  lemma XorWord(w: word, mask: word)
    requires mask == 0 || mask == 0xffff_ffff
    ensures Xor(w, mask) == if mask == 0 then w else 0xffff_ffff - w
  {
    if mask != 0 {
      WordPowers();
      XorOnes(w, 32);
    }
  }

  class LongBits {
    var lo: word
    var hi: word

    constructor (lo: int, hi: int)
      ensures Val() == Long(ToUint32(lo), ToUint32(hi))
    {
      this.lo := ToUint32(lo);
      this.hi := ToUint32(hi);
    }

    function Val(): Long
      reads this
    {
      Long(lo, hi)
    }

    /** Any integral number becomes its residue modulo 2^64, the carry of the negation done
        by hand. */
    static method FromNumber(value: int) returns (bits: LongBits)
      ensures fresh(bits) && bits.Val() == FromInt(value)
    {
      hide Xor, FromInt;
      var sign := value < 0;
      var v: nat := if sign then -value else value;
      var lo: int := ToUint32(v);
      var hi: int := ToUint32((v - lo) / TWO_32);
      ghost var size := Long(lo, hi);
      Residue(v, lo, hi);
      if sign {
        XorWord(hi, 0xffff_ffff);
        XorWord(lo, 0xffff_ffff);
        hi := Xor(hi, 0xffff_ffff);
        lo := Xor(lo, 0xffff_ffff);
        lo := lo + 1;
        if lo > 4294967295 {
          lo := 0;
          hi := hi + 1;
          if hi > 4294967295 {
            hi := 0;
          }
        }
        Negated(value, size, Long(lo, hi));
      }
      Word(lo);
      Word(hi);
      bits := new LongBits(lo, hi);
      LongUnique(Long(lo, hi), FromInt(value));
    }

    static lemma Word(w: word)
      ensures ToUint32(w) == w
    {
    }

    static lemma Residue(v: nat, lo: word, hi: word)
      requires lo == v % TWO_32 && hi == (v - lo) / TWO_32 % TWO_32
      ensures Long(lo, hi).Value() == v % TWO_64
    {
      var q := v / TWO_32;
      assert v == lo + TWO_32 * q && (v - lo) / TWO_32 == q;
      DivUnique(v, TWO_64, q / TWO_32, lo + TWO_32 * (q % TWO_32));
    }

    static lemma Negated(value: int, size: Long, r: Long)
      requires value < 0 && size.Value() == (-value) % TWO_64
      requires r.Value() == if size.Value() == 0 then 0 else TWO_64 - size.Value()
      ensures r.Value() == value % TWO_64
    {
      var q := (-value) / TWO_64;
      assert -value == q * TWO_64 + size.Value();
      if size.Value() == 0 {
        DivUnique(value, TWO_64, -q, 0);
      } else {
        DivUnique(value, TWO_64, -q - 1, TWO_64 - size.Value());
      }
    }

    /** The number, read as signed unless asked otherwise; the complement is undone by hand. */
    method ToNumber(unsigned: bool) returns (n: int)
      ensures n == if unsigned then Val().Value() else Signed(Val())
    {
      hide Xor;
      if !unsigned && this.hi / TWO_31 != 0 {
        XorWord(this.lo, 0xffff_ffff);
        XorWord(this.hi, 0xffff_ffff);
        var lo: int := ToUint32(Xor(this.lo, 0xffff_ffff) + 1);
        var hi: int := ToUint32(Xor(this.hi, 0xffff_ffff));
        Complement(Val());
        if lo == 0 {
          hi := ToUint32(hi + 1);
        }
        return -(lo + hi * 4294967296);
      }
      return (this.lo as int) + (this.hi as int) * 4294967296;
    }

    static lemma Complement(v: Long)
      requires v.hi >= TWO_31
      ensures ToUint32(0xffff_ffff - v.lo + 1) == if v.lo == 0 then 0 else TWO_32 - v.lo
      ensures ToUint32(0xffff_ffff - v.hi) == 0xffff_ffff - v.hi
      ensures ToUint32(0xffff_ffff - v.hi + 1) == TWO_32 - v.hi
      ensures Signed(v) == -(TWO_32 - v.lo + (0xffff_ffff - v.hi) * TWO_32)
    {
      if v.lo == 0 {
        DivUnique(TWO_32, TWO_32, 1, 0);
      } else {
        SmallMod(TWO_32 - v.lo, TWO_32);
      }
      SmallMod(0xffff_ffff - v.hi, TWO_32);
      SmallMod(TWO_32 - v.hi, TWO_32);
    }

    method ZzEncode()
      modifies this
      ensures Val() == ZigZagLong(old(Val()))
    {
      hide Xor, Or, ZigZagLong;
      ghost var v := Val();
      var mask := SignMask(this.hi);
      var carry := this.lo / TWO_31;
      Doubled(this.hi, carry);
      var high := ToUint32(this.hi * 2) + carry;
      XorWord(high, mask);
      XorWord(ToUint32(this.lo * 2), mask);
      ZigZagWords(v);
      this.hi := Xor(Or(ToUint32(this.hi * 2), carry), mask);
      this.lo := Xor(ToUint32(this.lo * 2), mask);
      LongUnique(Val(), ZigZagLong(v));
    }

    static lemma ZigZagWords(v: Long)
      ensures var high := ToUint32(v.hi * 2) + v.lo / TWO_31; var low := ToUint32(v.lo * 2);
        && high < TWO_32
        && ZigZagLong(v).Value() == if v.hi >= TWO_31 then 0xffff_ffff - low + TWO_32 * (0xffff_ffff - high) else low + TWO_32 * high
    {
      TwiceWord(v.hi);
      TwiceWord(v.lo);
      SmallMod(ZigZag(Signed(v)), TWO_64);
    }

    static lemma TwiceWord(w: word)
      ensures ToUint32((w as int) * 2) == (if w >= TWO_31 then (w as int) * 2 - TWO_32 else (w as int) * 2)
      ensures w / TWO_31 == if w >= TWO_31 then 1 else 0
    {
      var carry := if w >= TWO_31 then 1 else 0;
      DivUnique((w as int) * 2, TWO_32, carry, (w as int) * 2 - carry * TWO_32);
      DivUnique(w, TWO_31, carry, w - carry * TWO_31);
    }

    /** `hi << 1 | carry`. */
    static lemma Doubled(hi: word, carry: nat)
      requires carry <= 1
      ensures Or(ToUint32(hi * 2), carry) == ToUint32(hi * 2) + carry < TWO_32
    {
      var h := hi % TWO_31;
      assert hi * 2 % TWO_32 == h * 2;
      OrFieldsOne(h, carry);
    }

    static lemma OrFieldsOne(h: nat, carry: nat)
      requires carry <= 1
      ensures Or(h * 2, carry) == h * 2 + carry
    {
      assert Pow2(1) == 2;
      OrDisjoint(carry, h, 1);
      OrCommutes(carry, h * 2);
    }

    method ZzDecode()
      modifies this
      ensures Val() == ZigZagLongDecode(old(Val()))
    {
      hide Xor, Or, And, ZigZagLongDecode;
      ghost var v := Val();
      OddBit(this.lo);
      var mask := ToUint32(-(And(this.lo, 1) as int));
      HighBit(this.lo / 2, this.hi % 2);
      assert ToUint32(this.hi * TWO_31) == this.hi % 2 * TWO_31;
      XorWord(this.lo / 2 + this.hi % 2 * TWO_31, mask);
      XorWord(this.hi / 2, mask);
      this.lo := Xor(Or(this.lo / 2, ToUint32(this.hi * TWO_31)), mask);
      this.hi := Xor(this.hi / 2, mask);
      Halved(v, Val());
    }

    static lemma OddBit(w: word)
      ensures And(w, 1) == w % 2
    {
      assert Pow2(1) == 2;
      AndMask(w, 1);
    }

    /** `lo >>> 1 | hi << 31`. */
    static lemma HighBit(low: nat, bit: nat)
      requires low < TWO_31 && bit <= 1
      ensures Or(low, bit * TWO_31) == low + bit * TWO_31
    {
      WordPowers();
      OrDisjoint(low, bit, 31);
    }

    static lemma Halved(v: Long, r: Long)
      requires v.lo % 2 == 0 ==> r == Long(v.lo / 2 + v.hi % 2 * TWO_31, v.hi / 2)
      requires v.lo % 2 == 1 ==> r == Long(0xffff_ffff - (v.lo / 2 + v.hi % 2 * TWO_31), 0xffff_ffff - v.hi / 2)
      ensures r == ZigZagLongDecode(v)
    {
      var half := v.Value() / 2;
      assert half == v.lo / 2 + v.hi % 2 * TWO_31 + TWO_32 * (v.hi / 2);
      if v.lo % 2 == 0 {
        assert v.Value() % 2 == 0;
        SmallMod(half, TWO_64);
      } else {
        assert v.Value() % 2 == 1;
        assert r.Value() == TWO_64 - 1 - half;
        DivUnique(-half - 1, TWO_64, -1, TWO_64 - 1 - half);
      }
      LongUnique(r, ZigZagLongDecode(v));
    }

    /** The number of bytes that the varint of these bits takes. */
    method Length() returns (n: nat)
      ensures n == |Varint(Val().Value())|
    {
      hide Or, Varint, ToUint32;
      var part0 := this.lo;
      FourHigh(this.lo / 0x1000_0000, this.hi);
      var part1 := Or(this.lo / 0x1000_0000, ToUint32(this.hi * 16));
      var part2 := this.hi / 0x100_0000;
      LengthTable(Val());
      LengthParts(Val(), part1, part2);
      return if part2 == 0 then
        if part1 == 0 then
          if part0 < 16384 then (if part0 < 128 then 1 else 2) else (if part0 < 2097152 then 3 else 4)
        else
          if part1 < 16384 then (if part1 < 128 then 5 else 6) else (if part1 < 2097152 then 7 else 8)
        else if part2 < 128 then 9 else 10;
    }

    /** How comparing the three parts of 28, 28 and 8 bits compares the whole. */
    static lemma LengthParts(v: Long, part1: nat, part2: nat)
      requires part1 == v.lo / 0x1000_0000 + v.hi % 0x1000_0000 * 16 && part2 == v.hi / 0x100_0000
      ensures var n := v.Value();
        && (part2 == 0 <==> n < 0x100_0000_0000_0000) && (part2 < 128 <==> n < 0x8000_0000_0000_0000)
        && (part2 == 0 ==>
             && (part1 == 0 <==> n < 0x1000_0000) && (part1 < 128 <==> n < 0x8_0000_0000)
             && (part1 < 16384 <==> n < 0x400_0000_0000) && (part1 < 2097152 <==> n < 0x2_0000_0000_0000))
        && (n < 0x1000_0000 ==> n == v.lo)
    {
      if part2 == 0 {
        SmallMod(v.hi, 0x1000_0000);
        var top, rest := v.lo / 0x1000_0000, v.lo % 0x1000_0000;
        assert v.lo == top * 0x1000_0000 + rest;
        assert v.Value() == part1 * 0x1000_0000 + rest;
      }
    }

    /** `lo >>> 28 | hi << 4`. */
    static lemma FourHigh(low: nat, hi: word)
      requires low < 16
      ensures Or(low, ToUint32(hi * 16)) == low + hi % 0x1000_0000 * 16
    {
      var h := hi % 0x1000_0000;
      assert Pow2(4) == 16;
      DivUnique((hi as int) * 16, TWO_32, hi / 0x1000_0000, h * 16);
      OrDisjoint(low, h, 4);
    }

    static lemma LengthTable(v: Long)
      ensures var n := v.Value(); var k := |Varint(n)|;
        && 1 <= k <= 10
        && (k <= 1 <==> n < 0x80) && (k <= 2 <==> n < 0x4000) && (k <= 3 <==> n < 0x20_0000)
        && (k <= 4 <==> n < 0x1000_0000) && (k <= 5 <==> n < 0x8_0000_0000) && (k <= 6 <==> n < 0x400_0000_0000)
        && (k <= 7 <==> n < 0x2_0000_0000_0000) && (k <= 8 <==> n < 0x100_0000_0000_0000)
        && (k <= 9 <==> n < 0x8000_0000_0000_0000)
    {
      hide Pow2, Varint;
      var n := v.Value();
      SevenTable();
      VarintLength(n, 1);
      VarintLength(n, 2);
      VarintLength(n, 3);
      VarintLength(n, 4);
      VarintLength(n, 5);
      VarintLength(n, 6);
      VarintLength(n, 7);
      VarintLength(n, 8);
      VarintLength(n, 9);
      VarintLength(n, 10);
    }
  }
}
