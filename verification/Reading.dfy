/** What every `Reader` method computes, as functions of the buffer and the cursor, and what
    that means in terms of the Base 128 reference. A byte read past the end is JavaScript's
    `undefined`: it contributes no bits and, never being below 128, it does not end a varint. */
module Reading {
  import opened Wrappers
  import opened Bits
  import opened Varints

  datatype Error = IndexOutOfRange | InvalidVarint | InvalidWireType | MissingRequired

  /** A value with the cursor after it, or the exception that was thrown instead. */
  datatype Read<+T> = Throw(error: Error) | Got(val: T, pos: nat)

  /** A 64-bit value as its two words. */
  datatype Long = Long(lo: word, hi: word) {
    function Value(): (n: nat)
      ensures n < TWO_64
    {
      lo + TWO_32 * hi
    }
  }

  function Group(buf: bytes, pos: nat): (g: nat)
    ensures g < 128
  {
    if pos < |buf| then buf[pos] % 128 else 0
  }

  predicate Ends(buf: bytes, pos: nat) {
    pos < |buf| && buf[pos] < 128
  }

  /** The weight of the i-th group of seven bits. */
  function Weight(i: nat): (w: nat)
    requires i <= 4
    ensures w > 0
  {
    if i == 0 then 1 else if i == 1 then 0x80 else if i == 2 then 0x4000 else if i == 3 then 0x20_0000 else 0x1000_0000
  }

  /** `x << 7 * i`, before truncation. */
  function Scale(i: nat, x: nat): nat
    requires i <= 4
  {
    if i == 0 then x else if i == 1 then x * 0x80 else if i == 2 then x * 0x4000 else if i == 3 then x * 0x20_0000 else x * 0x1000_0000
  }

  // ---- 32-bit varints ----

  function ReadUint32(buf: bytes, pos: nat): (r: Read<word>)
    ensures r.Got? ==> pos < r.pos <= |buf|
  {
    Uint32From(buf, pos, 0, 0)
  }

  /** The i-th of the five unrolled steps of `uint32`, with `v` read so far. */
  function Uint32From(buf: bytes, pos: nat, i: nat, v: nat): (r: Read<word>)
    requires i <= 5 && (i < 5 ==> v < Weight(i)) && v < TWO_32
    ensures r.Got? ==> pos < r.pos <= |buf|
    decreases 5 - i
  {
    if i == 5 then
      if pos + 5 > |buf| then Throw(IndexOutOfRange) else Got(v, pos + 5)
    else
      var g := Group(buf, pos);
      var w := if i < 4 then v + Scale(i, g) else v + (g % 16) * 0x1000_0000;
      if Ends(buf, pos) then Got(w, pos + 1) else Uint32From(buf, pos + 1, i + 1, w)
  }

  function ReadInt32(buf: bytes, pos: nat): (r: Read<int>)
    ensures r.Got? ==> pos < r.pos <= |buf|
  {
    match ReadUint32(buf, pos)
    case Throw(e) => Throw(e)
    case Got(v, p) => Got(ToInt32(v), p)
  }

  /** `value >>> 1 ^ -(value & 1) | 0`, as the protocol's zig-zag rule reads. */
  function ZigZagDecode(w: nat): int {
    if w % 2 == 0 then w / 2 else -(w / 2) - 1
  }

  function ZigZag(n: int): nat {
    if n >= 0 then 2 * n else -2 * n - 1
  }

  function ReadSint32(buf: bytes, pos: nat): (r: Read<int>)
    ensures r.Got? ==> pos < r.pos <= |buf|
  {
    match ReadUint32(buf, pos)
    case Throw(e) => Throw(e)
    case Got(v, p) => Got(ZigZagDecode(v), p)
  }

  function ReadBool(buf: bytes, pos: nat): (r: Read<bool>)
    ensures r.Got? ==> pos < r.pos <= |buf|
  {
    match ReadUint32(buf, pos)
    case Throw(e) => Throw(e)
    case Got(v, p) => Got(v != 0, p)
  }

  /** A parsed varint, one byte at a time. */
  lemma ParseStep(buf: bytes, pos: nat)
    requires Parse(buf, pos).Some?
    ensures Ends(buf, pos) ==> Parse(buf, pos).value == Found(Group(buf, pos), pos + 1)
    ensures !Ends(buf, pos) ==>
      && Parse(buf, pos + 1).Some? && Parse(buf, pos).value.end == Parse(buf, pos + 1).value.end
      && Parse(buf, pos).value.value == Group(buf, pos) + 128 * Parse(buf, pos + 1).value.value
  {
  }

  lemma WeightStep(i: nat, v: nat, g: nat, rest: nat)
    requires i < 4
    ensures v + Scale(i, g + 128 * rest) == (v + Scale(i, g)) + Scale(i + 1, rest)
  {
  }

  lemma WeightBound(i: nat, v: nat, g: nat)
    requires i < 4 && v < Weight(i) && g < 128
    ensures v + Scale(i, g) < Weight(i + 1) <= 0x1000_0000
  {
  }

  lemma FifthGroup(v: nat, g: nat, rest: nat)
    requires v < 0x1000_0000 && g < 128
    ensures (v + 0x1000_0000 * (g + 128 * rest)) % TWO_32 == v + (g % 16) * 0x1000_0000 < TWO_32
  {
    assert v + 0x1000_0000 * (g + 128 * rest) == v + (g % 16) * 0x1000_0000 + TWO_32 * (g / 16 + 8 * rest);
  }

  function Uint32Low(i: nat, v: nat, value: nat): word
    requires i <= 5 && v < TWO_32
  {
    if i == 5 then v else (v + Scale(i, value)) % TWO_32
  }

  lemma Uint32LowStep(i: nat, v: nat, g: nat, rest: nat)
    requires i < 5 && v < Weight(i) && g < 128
    ensures var w := if i < 4 then v + Scale(i, g) else v + (g % 16) * 0x1000_0000;
      w < TWO_32 && Uint32Low(i, v, g + 128 * rest) == Uint32Low(i + 1, w, rest)
    ensures Uint32Low(i, v, g) == if i < 4 then v + Scale(i, g) else v + (g % 16) * 0x1000_0000
  {
    if i < 4 {
      WeightStep(i, v, g, rest);
      WeightBound(i, v, g);
      SmallMod(v + Scale(i, g), TWO_32);
    } else {
      FifthGroup(v, g, rest);
      FifthGroup(v, g, 0);
    }
  }

  lemma {:induction false} Uint32Step(buf: bytes, pos: nat, i: nat, v: nat)
    requires i <= 5 && (i < 5 ==> v < Weight(i)) && v < TWO_32
    requires Parse(buf, pos).Some?
    ensures Uint32From(buf, pos, i, v) ==
            Uint32Expected(buf, Parse(buf, pos).value, pos, i, Uint32Low(i, v, Parse(buf, pos).value.value))
    decreases 5 - i
  {
    hide Group, Scale;
    if i < 5 {
      var g := Group(buf, pos);
      ParseStep(buf, pos);
      if i < 4 {
        WeightBound(i, v, g);
      }
      if Ends(buf, pos) {
        Uint32LowStep(i, v, g, 0);
      } else {
        var rest := Parse(buf, pos + 1).value.value;
        Uint32LowStep(i, v, g, rest);
        Uint32Step(buf, pos + 1, i + 1, if i < 4 then v + Scale(i, g) else v + (g % 16) * 0x1000_0000);
      }
    }
  }

  lemma {:induction false} Uint32Unended(buf: bytes, pos: nat, i: nat, v: nat)
    requires i <= 5 && (i < 5 ==> v < Weight(i)) && v < TWO_32
    requires Parse(buf, pos).None?
    ensures var r := Uint32From(buf, pos, i, v); if pos + 10 - i > |buf| then r == Throw(IndexOutOfRange) else r.Got?
    decreases 5 - i
  {
    if i < 5 {
      var g := Group(buf, pos);
      assert Parse(buf, pos + 1).None?;
      Uint32Unended(buf, pos + 1, i + 1, if i < 4 then v + Scale(i, g) else v + (g % 16) * 0x1000_0000);
    }
  }

  function Uint32Expected(buf: bytes, f: Found, pos: nat, i: nat, low: word): Read<word>
    requires i <= 5
  {
    if f.end <= pos + 5 - i then Got(low, f.end)
    else if pos + 10 - i > |buf| then Throw(IndexOutOfRange)
    else Got(low, pos + 10 - i)
  }

  /** What `uint32` does with any varint: it delivers the value modulo 2^32, and its cursor is
      right exactly for the lengths 1 to 5 and 10. */
  lemma Uint32Exact(buf: bytes, pos: nat)
    requires Parse(buf, pos).Some?
    ensures var f := Parse(buf, pos).value; var n := f.end - pos;
      && (ReadUint32(buf, pos) == Got(f.value % TWO_32, f.end) <==> n <= 5 || n == 10)
      && (n > 5 ==> ReadUint32(buf, pos) == (if pos + 10 > |buf| then Throw(IndexOutOfRange) else Got(f.value % TWO_32, pos + 10)))
  {
    Uint32Step(buf, pos, 0, 0);
  }

  /** A varint cut off by the end of the buffer is refused, unless ten bytes were there. */
  lemma Uint32Truncated(buf: bytes, pos: nat)
    requires Parse(buf, pos).None?
    ensures ReadUint32(buf, pos) == Throw(IndexOutOfRange) <==> pos + 10 > |buf|
  {
    Uint32Unended(buf, pos, 0, 0);
  }

  /** A zero in six bytes, before four more: the cursor ends up past all ten. */
  lemma SixBytes()
    ensures var buf: bytes := [128, 128, 128, 128, 128, 0, 7, 7, 7, 7];
      Parse(buf, 0) == Some(Found(0, 6)) && ReadUint32(buf, 0) == Got(0, 10)
  {
    var buf: bytes := [128, 128, 128, 128, 128, 0, 7, 7, 7, 7];
    assert Parse(buf, 5) == Some(Found(0, 6));
    assert Parse(buf, 4) == Some(Found(0, 6));
    assert Parse(buf, 3) == Some(Found(0, 6));
    assert Parse(buf, 2) == Some(Found(0, 6));
    assert Parse(buf, 1) == Some(Found(0, 6));
    Uint32Exact(buf, 0);
  }

  lemma Uint32At(buf: bytes, pos: nat, n: nat)
    requires At(buf, pos, Varint(n)) && n < TWO_32
    ensures ReadUint32(buf, pos) == Got(n, pos + |Varint(n)|)
  {
    hide Varint, Uint32From, Parse, At;
    ParseVarint(n, buf, pos);
    VarintSizes(n);
    Uint32Step(buf, pos, 0, 0);
    SmallMod(n, TWO_32);
  }

  /** A length prefix survives exactly when it is below 2^32. */
  lemma LengthPrefixExact(buf: bytes, pos: nat, n: nat)
    requires At(buf, pos, Varint(n % TWO_32))
    ensures ReadUint32(buf, pos) == Got(n, pos + |Varint(n % TWO_32)|) <==> n < TWO_32
  {
    hide At, ReadUint32, Varint;
    Uint32At(buf, pos, n % TWO_32);
  }

  lemma NegativeLow(n: int)
    requires -TWO_31 <= n < 0
    ensures (TWO_64 + n) % TWO_32 == TWO_32 + n
  {
    DivUnique(TWO_64 + n, TWO_32, TWO_32 - 1, TWO_32 + n);
  }

  /** The ten bytes of a negative int32 are read back as that int32, cursor exactly past them. */
  lemma NegativeInt32(buf: bytes, pos: nat, n: int)
    requires -TWO_31 <= n < 0 && At(buf, pos, Varint(TWO_64 + n))
    ensures ReadInt32(buf, pos) == Got(n, pos + 10)
  {
    ParseVarint(TWO_64 + n, buf, pos);
    VarintSizes(TWO_64 + n);
    Uint32Exact(buf, pos);
    NegativeLow(n);
  }

  lemma ZigZagInverse(n: int)
    ensures ZigZagDecode(ZigZag(n)) == n
    ensures -TWO_31 <= n < TWO_31 <==> ZigZag(n) < TWO_32
  {
  }

  // ---- 64-bit varints ----

  function ReadLong(buf: bytes, pos: nat): (r: Read<Long>)
    ensures r.Got? ==> pos < r.pos <= |buf| + 1
  {
    if |buf| > pos + 4 then LongLow(buf, pos, 0, 0) else LongShort(buf, pos, 0, 0)
  }

  /** The first to fourth byte on the fast route. */
  function LongLow(buf: bytes, pos: nat, i: nat, lo: nat): (r: Read<Long>)
    requires i <= 4 && lo < Weight(i) && pos + 5 - i <= |buf|
    ensures r.Got? ==> pos < r.pos <= |buf|
    decreases 4 - i
  {
    if i == 4 then LongFifth(buf, pos, lo)
    else
      var low := lo + Scale(i, Group(buf, pos));
      if Ends(buf, pos) then Got(Long(low, 0), pos + 1)
      else LongLow(buf, pos + 1, i + 1, low)
  }

  /** The fifth byte straddles the two words. */
  function LongFifth(buf: bytes, pos: nat, lo: nat): (r: Read<Long>)
    requires lo < Weight(4) && pos < |buf|
    ensures r.Got? ==> pos < r.pos <= |buf|
  {
    var g := Group(buf, pos);
    var low := lo + (g % 16) * 0x1000_0000;
    if Ends(buf, pos) then Got(Long(low, g / 16), pos + 1)
    else LongHigh(buf, pos + 1, 0, low, g / 16, |buf| <= pos + 5)
  }

  /** Up to four bytes when no more than four are left; the fourth is not checked. */
  function LongShort(buf: bytes, pos: nat, i: nat, lo: nat): (r: Read<Long>)
    requires i <= 3 && lo < Weight(i) && (i > 0 ==> pos <= |buf|)
    ensures r.Got? ==> pos < r.pos <= |buf| + 1
    decreases 3 - i
  {
    var low := lo + Scale(i, Group(buf, pos));
    if i == 3 then Got(Long(low, 0), pos + 1)
    else if pos >= |buf| then Throw(IndexOutOfRange)
    else if Ends(buf, pos) then Got(Long(low, 0), pos + 1)
    else LongShort(buf, pos + 1, i + 1, low)
  }

  /** The sixth to tenth byte; `checked` on the route that looks for the end of the buffer. */
  function LongHigh(buf: bytes, pos: nat, i: nat, lo: word, hi: word, checked: bool): (r: Read<Long>)
    requires i <= 5 && (i < 5 ==> hi < 8 * Weight(i))
    requires !checked ==> pos + 5 - i <= |buf|
    ensures r.Got? ==> pos < r.pos <= |buf|
    decreases 5 - i
  {
    if i == 5 then Throw(InvalidVarint)
    else if checked && pos >= |buf| then Throw(IndexOutOfRange)
    else
      var g := Group(buf, pos);
      var high := if i < 4 then hi + 8 * Scale(i, g) else hi + (g % 2) * TWO_31;
      if Ends(buf, pos) then Got(Long(lo, high), pos + 1)
      else LongHigh(buf, pos + 1, i + 1, lo, high, checked)
  }

  function HighWord(i: nat, hi: word, value: nat): word
    requires i <= 5
  {
    if i == 5 then hi else (hi + 8 * Scale(i, value)) % TWO_32
  }

  lemma HighWordStep(i: nat, hi: word, g: nat, rest: nat)
    requires i < 5 && hi < 8 * Weight(i) && g < 128
    ensures var w := if i < 4 then hi + 8 * Scale(i, g) else hi + (g % 2) * TWO_31;
      w < TWO_32 && (i < 4 ==> w < 8 * Weight(i + 1))
      && HighWord(i, hi, g + 128 * rest) == HighWord(i + 1, w, rest)
    ensures HighWord(i, hi, g) == if i < 4 then hi + 8 * Scale(i, g) else hi + (g % 2) * TWO_31
  {
    hide Scale;
    if i < 4 {
      HighWeightStep(i, hi, g, rest);
      SmallMod(hi + 8 * Scale(i, g), TWO_32);
    } else {
      TenthGroup(hi, g, rest);
      TenthGroup(hi, g, 0);
      ScaleFour(g + 128 * rest);
      ScaleFour(g);
    }
  }

  lemma ScaleFour(x: nat)
    ensures 8 * Scale(4, x) == TWO_31 * x
  {
  }

  lemma HighWeightStep(i: nat, hi: nat, g: nat, rest: nat)
    requires i < 4 && hi < 8 * Weight(i) && g < 128
    ensures hi + 8 * Scale(i, g + 128 * rest) == (hi + 8 * Scale(i, g)) + 8 * Scale(i + 1, rest)
    ensures hi + 8 * Scale(i, g) < 8 * Weight(i + 1) <= TWO_31
  {
  }

  lemma TenthGroup(hi: nat, g: nat, rest: nat)
    requires hi < TWO_31 && g < 128
    ensures (hi + TWO_31 * (g + 128 * rest)) % TWO_32 == hi + (g % 2) * TWO_31 < TWO_32
  {
    assert hi + TWO_31 * (g + 128 * rest) == hi + (g % 2) * TWO_31 + TWO_32 * (g / 2 + 64 * rest);
    DivUnique(hi + TWO_31 * (g + 128 * rest), TWO_32, g / 2 + 64 * rest, hi + (g % 2) * TWO_31);
  }

  lemma {:induction false} LongHighStep(buf: bytes, pos: nat, i: nat, lo: word, hi: word, checked: bool)
    requires i <= 5 && (i < 5 ==> hi < 8 * Weight(i))
    requires !checked ==> pos + 5 - i <= |buf|
    requires Parse(buf, pos).Some?
    ensures LongHigh(buf, pos, i, lo, hi, checked) == LongHighExpected(Parse(buf, pos).value, pos, i, lo, hi)
    decreases 5 - i
  {
    hide Group, Scale, HighWord;
    if i < 5 {
      var g := Group(buf, pos);
      ParseStep(buf, pos);
      if Ends(buf, pos) {
        HighWordStep(i, hi, g, 0);
      } else {
        HighWordStep(i, hi, g, Parse(buf, pos + 1).value.value);
        LongHighStep(buf, pos + 1, i + 1, lo, if i < 4 then hi + 8 * Scale(i, g) else hi + (g % 2) * TWO_31, checked);
      }
    }
  }

  function LongHighExpected(f: Found, pos: nat, i: nat, lo: word, hi: word): Read<Long>
    requires i <= 5
  {
    if f.end <= pos + 5 - i then Got(Long(lo, HighWord(i, hi, f.value)), f.end) else Throw(InvalidVarint)
  }

  lemma {:induction false} LongHighUnended(buf: bytes, pos: nat, i: nat, lo: word, hi: word, checked: bool)
    requires i <= 5 && (i < 5 ==> hi < 8 * Weight(i))
    requires !checked ==> pos + 5 - i <= |buf|
    requires Parse(buf, pos).None?
    ensures LongHigh(buf, pos, i, lo, hi, checked).Throw?
    decreases 5 - i
  {
    if i < 5 && pos < |buf| {
      var g := Group(buf, pos);
      LongHighUnended(buf, pos + 1, i + 1, lo, if i < 4 then hi + 8 * Scale(i, g) else hi + (g % 2) * TWO_31, checked);
    }
  }

  /** Splitting the fifth group over the two words. */
  lemma LongJoin(lo: nat, g: nat, rest: nat)
    requires lo < 0x1000_0000 && g < 128
    ensures var low := lo + (g % 16) * 0x1000_0000;
      low < TWO_32 && Long(low, (g / 16 + 8 * rest) % TWO_32).Value() == (lo + 0x1000_0000 * (g + 128 * rest)) % TWO_64
  {
    var low := lo + (g % 16) * 0x1000_0000;
    var h := g / 16 + 8 * rest;
    assert lo + 0x1000_0000 * (g + 128 * rest) == low + TWO_32 * h;
    DivUnique(low + TWO_32 * h, TWO_64, h / TWO_32, low + TWO_32 * (h % TWO_32));
  }

  ghost predicate LongExpected(r: Read<Long>, end: nat, limit: int, value: int) {
    if end <= limit then r.Got? && r.pos == end && r.val.Value() == value % TWO_64 else r == Throw(InvalidVarint)
  }

  lemma ShortLong(i: nat, lo: nat, g: nat)
    requires i < 4 && lo < Weight(i) && g < 128
    ensures lo + Scale(i, g) < Weight(i + 1)
    ensures Long(lo + Scale(i, g), 0).Value() == (lo + Scale(i, g)) % TWO_64
  {
    WeightStep(i, lo, g, 0);
  }

  lemma {:induction false} LongLowStep(buf: bytes, pos: nat, i: nat, lo: nat)
    requires i <= 4 && lo < Weight(i) && pos + 5 - i <= |buf|
    requires Parse(buf, pos).Some?
    ensures LongExpected(LongLow(buf, pos, i, lo), Parse(buf, pos).value.end, pos + 10 - i, lo + Scale(i, Parse(buf, pos).value.value))
    decreases 4 - i
  {
    hide LongExpected, LongLow, LongFifth, Scale, Group, Parse;
    if i == 4 {
      LongFifthStep(buf, pos, lo);
    } else if Ends(buf, pos) {
      LongLowEnds(buf, pos, i, lo);
    } else {
      LongLowGoesOn(buf, pos, i, lo);
      LongLowStep(buf, pos + 1, i + 1, lo + Scale(i, Group(buf, pos)));
    }
  }

  lemma LongLowGoesOn(buf: bytes, pos: nat, i: nat, lo: nat)
    requires i < 4 && lo < Weight(i) && pos + 5 - i <= |buf| && Parse(buf, pos).Some? && !Ends(buf, pos)
    ensures Parse(buf, pos + 1).Some? && Parse(buf, pos).value.end == Parse(buf, pos + 1).value.end
    ensures var low := lo + Scale(i, Group(buf, pos));
      && low < Weight(i + 1)
      && LongLow(buf, pos, i, lo) == LongLow(buf, pos + 1, i + 1, low)
      && lo + Scale(i, Parse(buf, pos).value.value) == low + Scale(i + 1, Parse(buf, pos + 1).value.value)
  {
    ParseStep(buf, pos);
    WeightStep(i, lo, Group(buf, pos), Parse(buf, pos + 1).value.value);
  }

  lemma LongLowEnds(buf: bytes, pos: nat, i: nat, lo: nat)
    requires i < 4 && lo < Weight(i) && pos + 5 - i <= |buf| && Ends(buf, pos)
    ensures LongExpected(LongLow(buf, pos, i, lo), Parse(buf, pos).value.end, pos + 10 - i, lo + Scale(i, Parse(buf, pos).value.value))
  {
    ParseStep(buf, pos);
    ShortLong(i, lo, Group(buf, pos));
  }

  lemma LongFifthStep(buf: bytes, pos: nat, lo: nat)
    requires lo < Weight(4) && pos < |buf|
    requires Parse(buf, pos).Some?
    ensures LongExpected(LongLow(buf, pos, 4, lo), Parse(buf, pos).value.end, pos + 6, lo + Scale(4, Parse(buf, pos).value.value))
  {
    hide LongHigh, Parse, Group;
    var g := Group(buf, pos);
    ParseStep(buf, pos);
    if Ends(buf, pos) {
      LongJoin(lo, g, 0);
    } else {
      LongJoin(lo, g, Parse(buf, pos + 1).value.value);
      LongHighStep(buf, pos + 1, 0, lo + (g % 16) * 0x1000_0000, g / 16, |buf| <= pos + 5);
    }
  }

  lemma {:induction false} LongLowUnended(buf: bytes, pos: nat, i: nat, lo: nat)
    requires i <= 4 && lo < Weight(i) && pos + 5 - i <= |buf|
    requires Parse(buf, pos).None?
    ensures LongLow(buf, pos, i, lo).Throw?
    decreases 4 - i
  {
    var g := Group(buf, pos);
    if i == 4 {
      LongHighUnended(buf, pos + 1, 0, lo + (g % 16) * 0x1000_0000, g / 16, |buf| <= pos + 5);
    } else {
      LongLowUnended(buf, pos + 1, i + 1, lo + Scale(i, g));
    }
  }

  lemma {:induction false} LongShortStep(buf: bytes, pos: nat, i: nat, lo: nat)
    requires i <= 3 && lo < Weight(i) && pos <= |buf| <= pos + 4 - i
    ensures Parse(buf, pos).Some? ==>
      LongExpected(LongShort(buf, pos, i, lo), Parse(buf, pos).value.end, pos + 4 - i, lo + Scale(i, Parse(buf, pos).value.value))
    ensures Parse(buf, pos).None? ==> (LongShort(buf, pos, i, lo).Got? <==> |buf| >= pos + 3 - i)
    ensures LongShort(buf, pos, i, lo).Got? ==>
      LongShort(buf, pos, i, lo).pos == if Parse(buf, pos).Some? then Parse(buf, pos).value.end else pos + 4 - i
    decreases 3 - i
  {
    var g := Group(buf, pos);
    if Parse(buf, pos).Some? {
      ParseStep(buf, pos);
      ShortLong(i, lo, g);
      WeightStep(i, lo, g, if Ends(buf, pos) then 0 else Parse(buf, pos + 1).value.value);
    }
    if i < 3 && pos < |buf| && !Ends(buf, pos) {
      LongShortStep(buf, pos + 1, i + 1, lo + Scale(i, g));
    }
  }

  /** What `readLongVarint` does with any varint of the reference, on whichever route: the
      value modulo 2^64 when it has at most ten bytes, an exception when it has more. */
  lemma LongExact(buf: bytes, pos: nat)
    requires Parse(buf, pos).Some?
    ensures LongExpected(ReadLong(buf, pos), Parse(buf, pos).value.end, pos + 10, Parse(buf, pos).value.value)
  {
    if |buf| > pos + 4 {
      LongLowStep(buf, pos, 0, 0);
    } else {
      LongShortStep(buf, pos, 0, 0);
    }
  }

  /** A varint cut off by the end of the buffer is let through exactly when three or four of
      its bytes are left; with three the cursor ends up one past the buffer. */
  lemma LongTruncated(buf: bytes, pos: nat)
    requires Parse(buf, pos).None?
    ensures ReadLong(buf, pos).Got? <==> pos + 3 <= |buf| <= pos + 4
    ensures ReadLong(buf, pos).Got? ==> ReadLong(buf, pos).pos == pos + 4
  {
    if |buf| > pos + 4 {
      LongLowUnended(buf, pos, 0, 0);
    } else if pos <= |buf| {
      LongShortStep(buf, pos, 0, 0);
    }
  }

  /** Three continuation bytes and nothing else are read, and the cursor ends up past the buffer. */
  lemma ThreeBytes()
    ensures var buf: bytes := [128, 128, 128];
      Parse(buf, 0) == None && ReadLong(buf, 0).Got? && ReadLong(buf, 0).pos == |buf| + 1
  {
    var buf: bytes := [128, 128, 128];
    assert Parse(buf, 2) == None;
    assert Parse(buf, 1) == None;
    LongTruncated(buf, 0);
  }

  lemma LongAt(buf: bytes, pos: nat, v: Long)
    requires At(buf, pos, Varint(v.Value()))
    ensures ReadLong(buf, pos) == Got(v, pos + |Varint(v.Value())|)
  {
    ParseVarint(v.Value(), buf, pos);
    VarintSizes(v.Value());
    LongExact(buf, pos);
    var r := ReadLong(buf, pos);
    assert r.Got? && r.val.Value() == v.Value() by { SmallMod(v.Value(), TWO_64); }
    LongUnique(v, r.val);
  }

  lemma SmallMod(a: nat, m: nat)
    requires a < m
    ensures a % m == a
  {
  }

  lemma LongUnique(a: Long, b: Long)
    requires a.Value() == b.Value()
    ensures a == b
  {
  }

  // ---- fixed-size values, byte strings and skipping ----

  function Fixed32(v: word): (b: bytes)
    ensures |b| == 4
  {
    [v % 0x100, v / 0x100 % 0x100, v / 0x1_0000 % 0x100, v / 0x100_0000]
  }

  function ReadFixed32(buf: bytes, pos: nat): (r: Read<word>)
    ensures r.Got? ==> r.pos == pos + 4 <= |buf|
  {
    if pos + 4 > |buf| then Throw(IndexOutOfRange)
    else Got(FromFour(buf[pos], buf[pos + 1], buf[pos + 2], buf[pos + 3]), pos + 4)
  }

  function FromFour(b0: byte, b1: byte, b2: byte, b3: byte): word {
    (b0 as int) + 0x100 * (b1 as int) + 0x1_0000 * (b2 as int) + 0x100_0000 * (b3 as int)
  }

  lemma FourBytes(v: word)
    ensures FromFour(v % 0x100, v / 0x100 % 0x100, v / 0x1_0000 % 0x100, v / 0x100_0000) == v
  {
    assert v / 0x1_0000 == v / 0x100 / 0x100 && v / 0x100_0000 == v / 0x1_0000 / 0x100;
  }

  function ReadFixed64(buf: bytes, pos: nat): (r: Read<Long>)
    ensures r.Got? ==> r.pos == pos + 8 <= |buf|
  {
    if pos + 8 > |buf| then Throw(IndexOutOfRange)
    else Got(Long(ReadFixed32(buf, pos).val, ReadFixed32(buf, pos + 4).val), pos + 8)
  }

  /** A float or a double, kept as its bytes. */
  function ReadRaw(buf: bytes, pos: nat, n: nat): (r: Read<bytes>)
    ensures r.Got? ==> r.pos == pos + n <= |buf|
  {
    if pos + n > |buf| then Throw(IndexOutOfRange) else Got(buf[pos..pos + n], pos + n)
  }

  function ReadBytes(buf: bytes, pos: nat): (r: Read<bytes>)
    ensures r.Got? ==> pos < r.pos <= |buf|
  {
    match ReadUint32(buf, pos)
    case Throw(e) => Throw(e)
    case Got(n, p) => ReadRaw(buf, p, n)
  }

  /** `skip` with a known length. */
  function Skip(buf: bytes, pos: nat, n: nat): (r: Read<()>)
    ensures r.Got? ==> r.pos == pos + n <= |buf|
  {
    if pos + n > |buf| then Throw(IndexOutOfRange) else Got((), pos + n)
  }

  /** `skip` over a varint of any length. */
  function SkipVarint(buf: bytes, pos: nat): (r: Read<()>)
    ensures r.Got? ==> pos < r.pos <= |buf|
    decreases |buf| - pos
  {
    if pos >= |buf| then Throw(IndexOutOfRange)
    else if buf[pos] < 128 then Got((), pos + 1)
    else SkipVarint(buf, pos + 1)
  }

  function SkipType(buf: bytes, pos: nat, wireType: nat): (r: Read<()>)
    ensures r.Got? ==> pos <= r.pos <= |buf|
    decreases |buf| - pos, 1
  {
    if wireType == 0 then SkipVarint(buf, pos)
    else if wireType == 1 then Skip(buf, pos, 8)
    else if wireType == 2 then
      match ReadUint32(buf, pos)
      case Throw(e) => Throw(e)
      case Got(n, p) => Skip(buf, p, n)
    else if wireType == 3 then SkipGroup(buf, pos)
    else if wireType == 5 then Skip(buf, pos, 4)
    else Throw(InvalidWireType)
  }

  /** The loop over the elements of a group, up to its end tag. */
  function SkipGroup(buf: bytes, pos: nat): (r: Read<()>)
    ensures r.Got? ==> pos < r.pos <= |buf|
    decreases |buf| - pos, 0
  {
    match ReadUint32(buf, pos)
    case Throw(e) => Throw(e)
    case Got(tag, p) =>
      if tag % 8 == 4 then Got((), p)
      else match SkipType(buf, p, tag % 8)
        case Throw(e) => Throw(e)
        case Got(_, q) => SkipGroup(buf, q)
  }

  lemma Fixed32At(buf: bytes, pos: nat, v: word)
    requires At(buf, pos, Fixed32(v))
    ensures ReadFixed32(buf, pos) == Got(v, pos + 4)
  {
    FourBytes(v);
    AtIndex(buf, pos, Fixed32(v), 0);
    AtIndex(buf, pos, Fixed32(v), 1);
    AtIndex(buf, pos, Fixed32(v), 2);
    AtIndex(buf, pos, Fixed32(v), 3);
  }

  lemma Fixed64At(buf: bytes, pos: nat, v: Long)
    requires At(buf, pos, Fixed32(v.lo) + Fixed32(v.hi))
    ensures ReadFixed64(buf, pos) == Got(v, pos + 8)
  {
    AtConcat(buf, pos, Fixed32(v.lo), Fixed32(v.hi));
    Fixed32At(buf, pos, v.lo);
    Fixed32At(buf, pos + 4, v.hi);
  }

  /** A byte string behind its length. */
  function Delimit(b: bytes): bytes {
    Varint(|b| % TWO_32) + b
  }

  lemma DelimitedAt(buf: bytes, pos: nat, b: bytes)
    requires At(buf, pos, Delimit(b)) && |b| < TWO_32
    ensures ReadUint32(buf, pos) == Got(|b|, pos + |Varint(|b|)|)
    ensures At(buf, pos + |Varint(|b|)|, b) && |Delimit(b)| == |Varint(|b|)| + |b|
    ensures ReadBytes(buf, pos) == Got(b, pos + |Delimit(b)|)
  {
    hide At, ReadUint32, Varint;
    SmallMod(|b|, TWO_32);
    AtConcat(buf, pos, Varint(|b|), b);
    AtBound(buf, pos + |Varint(|b|)|, b);
    Uint32At(buf, pos, |b|);
  }

  lemma {:induction false} SkipVarintAt(buf: bytes, pos: nat, n: nat)
    requires At(buf, pos, Varint(n))
    ensures SkipVarint(buf, pos) == Got((), pos + |Varint(n)|)
    decreases n
  {
    AtIndex(buf, pos, Varint(n), 0);
    if n > 127 {
      AtConcat(buf, pos, [n % 128 + 128], Varint(n / 128));
      SkipVarintAt(buf, pos + 1, n / 128);
    }
  }
}
