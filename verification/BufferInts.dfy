/** The signed multi-byte accessors of the bundled Buffer: `writeIntLE`, `writeIntBE`, `readIntLE` and
    `readIntBE`, with their checks. */
module BufferInts {
  import opened Bits
  import opened Buffers

  datatype Result = Ok(value: int) | ValueOutOfBounds | IndexOutOfRange

  function Pow256(n: nat): (p: nat)
    ensures p > 0
  {
    if n == 0 then 1 else 256 * Pow256(n - 1)
  }

  /** Quotient of doubles, cut off towards zero. The quotients that occur are exact. */
  function Trunc(v: int, mul: nat): int
    requires mul > 0
  {
    if v >= 0 then v / mul else -((-v) / mul)
  }

  /** `v & 255`. */
  function LowByte(v: int): byte {
    AndByte(ToUint32(v));
    And(ToUint32(v), 0xff)
  }

  lemma AndByte(w: nat)
    ensures And(w, 0xff) == w % 256
  {
    assert Pow2(4) == 16 && Pow2(8) == 256;
    AndMask(w, 8);
  }

  /** The values of a signed integer of `n` bytes. */
  predicate InRange(v: int, n: nat)
    requires n > 0
  {
    -128 * Pow256(n - 1) <= v < 128 * Pow256(n - 1)
  }

  // ---- two's complement ----

  /** The lowest `n` bytes of the two's complement representation, the lowest first. */
  ghost function Little(v: int, n: nat): bytes
    decreases n
  {
    if n == 0 then [] else [v % 256] + Little(v / 256, n - 1)
  }

  /** What is left of a number after `n` of its bytes are gone. */
  ghost function Shifted(v: int, n: nat): int {
    v / Pow256(n)
  }

  ghost function Digit(v: int, n: nat): byte {
    Shifted(v, n) % 256
  }

  /** Whether the lowest `n` bytes of a negative number are not all zero. */
  ghost function Borrow(v: int, n: nat): int {
    if v < 0 && v % Pow256(n) != 0 then 1 else 0
  }

  ghost function Unsigned(b: bytes): nat {
    if b == [] then 0 else b[0] + 256 * Unsigned(b[1..])
  }

  /** What bytes stand for, the lowest first. */
  ghost function Signed(b: bytes): int
    requires b != []
  {
    var u := Unsigned(b);
    if u >= 128 * Pow256(|b| - 1) then u - Pow256(|b|) else u
  }

  ghost function Reversed(b: bytes): (r: bytes)
    ensures |r| == |b|
  {
    if b == [] then [] else Reversed(b[1..]) + [b[0]]
  }

  lemma Regroup(p: int, s: int, a: nat, b: nat)
    ensures (p * b + s) * a == p * (a * b) + s * a
    ensures (b - 1) * a == a * b - a
  {
  }

  lemma DivDiv(v: int, a: nat, b: nat)
    requires a > 0 && b > 0
    ensures a * b > 0 && (v / a) / b == v / (a * b)
    ensures v % (a * b) == v % a + ((v / a) % b) * a
  {
    var q, r := v / a, v % a;
    var p, s := q / b, q % b;
    MulMono(0, s, a);
    MulMono(s, b - 1, a);
    Regroup(p, s, a, b);
    DivUnique(v, a * b, p, r + s * a);
  }

  lemma {:induction false} LittlePush(v: int, n: nat)
    ensures Little(v, n + 1) == Little(v, n) + [Digit(v, n)]
    ensures |Little(v, n)| == n
    decreases n
  {
    if n > 0 {
      LittlePush(v / 256, n - 1);
      DivDiv(v, 256, Pow256(n - 1));
      assert [v % 256] + (Little(v / 256, n - 1) + [Digit(v, n)]) == Little(v, n) + [Digit(v, n)];
    }
  }

  lemma {:induction false} UnsignedLittle(v: int, n: nat)
    ensures |Little(v, n)| == n && Unsigned(Little(v, n)) == v % Pow256(n)
    decreases n
  {
    if n > 0 {
      UnsignedLittle(v / 256, n - 1);
      DivDiv(v, 256, Pow256(n - 1));
    }
  }

  lemma {:induction false} UnsignedBound(b: bytes)
    ensures Unsigned(b) < Pow256(|b|)
  {
    if b != [] {
      UnsignedBound(b[1..]);
    }
  }

  lemma TimesPower(k: int, n: nat)
    ensures k * Pow256(n + 1) == 256 * (k * Pow256(n))
  {
    var p: int := Pow256(n);
    assert k * (256 * p) == 256 * (k * p);
  }

  lemma {:induction false} UnsignedPush(b: bytes, x: byte)
    ensures Unsigned(b + [x]) == Unsigned(b) + x * Pow256(|b|)
  {
    if b == [] {
      assert [x][1..] == [];
    } else {
      hide Pow256;
      UnsignedPush(b[1..], x);
      assert (b + [x])[1..] == b[1..] + [x];
      TimesPower(x, |b| - 1);
    }
  }

  /** Reading undoes writing, on the values that are in range and on no others. */
  lemma SignedInverse(v: int, n: nat)
    requires n > 0
    ensures |Little(v, n)| == n
    ensures Signed(Little(v, n)) == v <==> InRange(v, n)
  {
    var p := Pow256(n - 1);
    UnsignedLittle(v, n);
    UnsignedBound(Little(v, n));
    if InRange(v, n) {
      if v >= 0 {
        DivUnique(v, 256 * p, 0, v);
      } else {
        DivUnique(v, 256 * p, -1, v + 256 * p);
      }
    }
  }

  lemma LittleStep(v: int, n: nat, q: int, x: byte)
    requires v == q * 256 + x
    ensures Little(v, n + 1) == [x] + Little(q, n)
  {
    DivUnique(v, 256, q, x);
  }

  lemma {:induction false} LittleUnsigned(b: bytes, k: int)
    ensures Little(Unsigned(b) + k * Pow256(|b|), |b|) == b
  {
    if b != [] {
      hide Pow256, Little;
      var n := |b| - 1;
      var carried := k * Pow256(n);
      TimesPower(k, n);
      LittleUnsigned(b[1..], k);
      LittleStep(b[0] + 256 * Unsigned(b[1..]) + 256 * carried, n, Unsigned(b[1..]) + carried, b[0]);
      assert [b[0]] + b[1..] == b;
    }
  }

  /** Writing undoes reading. */
  lemma LittleInverse(b: bytes)
    requires b != []
    ensures Little(Signed(b), |b|) == b && InRange(Signed(b), |b|)
  {
    hide Unsigned, Little;
    var u: int, p: int := Unsigned(b), Pow256(|b|);
    UnsignedBound(b);
    LittleUnsigned(b, 0);
    LittleUnsigned(b, -1);
    assert 0 * p == 0 && -1 * p == -p;
    assert p == 256 * Pow256(|b| - 1);
    assert Signed(b) == u || Signed(b) == u - p;
  }

  // ---- the borrow ----

  lemma ShiftMod(v: int, k: int)
    ensures (v + 256 * k) % 256 == v % 256
  {
    DivUnique(v + 256 * k, 256, v / 256 + k, v % 256);
  }

  lemma LowByteMod(v: int)
    ensures LowByte(v) == v % 256
  {
    AndByte(ToUint32(v));
    ShiftMod(v, -(v / TWO_32) * 0x100_0000);
  }

  lemma WrapMod(t: int, a: int)
    ensures (ToInt32(ToUint32(t)) - a) % 256 == (t - a) % 256
  {
    var w := ToUint32(t);
    var k := -(t / TWO_32) - (if w >= TWO_31 then 1 else 0);
    assert ToInt32(w) == t + k * TWO_32;
    ShiftMod(t - a, k * 0x100_0000);
  }

  lemma TruncFloor(v: int, mul: nat)
    requires mul > 0
    ensures v / mul == Trunc(v, mul) - (if v < 0 && v % mul != 0 then 1 else 0)
  {
    if v < 0 {
      var q, r := (-v) / mul, (-v) % mul;
      assert -v == q * mul + r;
      if r == 0 {
        assert v == (-q) * mul;
        DivUnique(v, mul, -q, 0);
      } else {
        assert v == (-q - 1) * mul + (mul - r) by {
          assert (-q - 1) * mul == -(q * mul) - mul;
        }
        DivUnique(v, mul, -q - 1, mul - r);
      }
    }
  }

  /** With the borrow, division towards zero gives the byte that division towards minus infinity
      gives; the borrow is due when a negative value is not a multiple of the divisor. */
  lemma BorrowedByte(v: int, n: nat)
    ensures LowByte(ToInt32(ToUint32(Trunc(v, Pow256(n)))) - Borrow(v, n)) == Digit(v, n)
  {
    hide LowByte, Trunc, ToInt32, ToUint32, Pow256;
    TruncFloor(v, Pow256(n));
    WrapMod(Trunc(v, Pow256(n)), Borrow(v, n));
    LowByteMod(ToInt32(ToUint32(Trunc(v, Pow256(n)))) - Borrow(v, n));
  }

  lemma {:induction false} ReversedPush(b: bytes, x: byte)
    ensures Reversed(b + [x]) == [x] + Reversed(b)
  {
    if b == [] {
      assert [x][1..] == [];
    } else {
      ReversedPush(b[1..], x);
      assert (b + [x])[1..] == b[1..] + [x];
    }
  }

  lemma {:induction false} ReversedTwice(b: bytes)
    ensures Reversed(Reversed(b)) == b
  {
    if b != [] {
      ReversedTwice(b[1..]);
      ReversedPush(Reversed(b[1..]), b[0]);
    }
  }

  /** How the borrow flag goes from one byte to the next. */
  lemma BorrowStep(v: int, s: nat)
    requires s > 0
    ensures Pow256(s) == Pow256(s - 1) * 256
    ensures Borrow(v, s) == if v < 0 && Borrow(v, s - 1) == 0 && Digit(v, s - 1) != 0 then 1 else Borrow(v, s - 1)
    ensures |Little(v, s)| == s && Little(v, s)[s - 1] == Digit(v, s - 1)
  {
    var p := Pow256(s - 1);
    DivDiv(v, p, 256);
    LittlePush(v, s - 1);
    MulMono(0, Digit(v, s - 1), p);
    if Digit(v, s - 1) != 0 {
      MulMono(1, Digit(v, s - 1), p);
    }
  }

  // ---- the accessors ----

  /** The values that a write accepts: those in range and, since from seven bytes on the upper limit
      is rounded as a double, also the one above it. No integer fits no bytes. */
  predicate Accepted(v: int, n: nat) {
    n > 0 && (InRange(v, n) || (n > 6 && v == 128 * Pow256(n - 1)))
  }

  /** The exceptions of a write, if the value or the index is out of range. */
  function WriteCheck(size: nat, value: int, offset: nat, byteLength: nat): Result {
    if !Accepted(value, byteLength) then ValueOutOfBounds
    else if offset + byteLength > size then IndexOutOfRange
    else Ok(offset + byteLength)
  }

  lemma Checked(size: nat, value: int, offset: nat, n: nat)
    ensures !Accepted(value, n) ==> WriteCheck(size, value, offset, n) == ValueOutOfBounds
    ensures Accepted(value, n) ==> n > 0
    ensures Accepted(value, n) && offset + n > size ==> WriteCheck(size, value, offset, n) == IndexOutOfRange
    ensures Accepted(value, n) && offset + n <= size ==> WriteCheck(size, value, offset, n) == Ok(offset + n)
  {
  }

  /** The next byte of a value after `n` of them, given the last one written: the multiplier and the
      sticky borrow flag move on. */
  method NextDigit(value: int, mul: nat, sub: int, last: byte, ghost n: nat) returns (mul': nat, sub': int, v: byte)
    requires n > 0 && mul == Pow256(n - 1) && sub == Borrow(value, n - 1) && last == Digit(value, n - 1)
    ensures mul' == Pow256(n) && sub' == Borrow(value, n) && v == Digit(value, n)
  {
    hide LowByte, Trunc, ToInt32, ToUint32, Little, Pow256, Borrow, Digit;
    BorrowStep(value, n);
    BorrowedByte(value, n);
    mul', sub' := mul * 256, sub;
    if value < 0 && sub == 0 && last != 0 {
      sub' := 1;
    }
    v := LowByte(ToInt32(ToUint32(Trunc(value, mul'))) - sub');
  }

  method WriteIntLE(buf: array<byte>, value: int, offset: nat, byteLength: nat) returns (r: Result)
    requires offset < TWO_31
    modifies buf
    ensures r == WriteCheck(buf.Length, value, offset, byteLength)
    ensures buf[..] == if r.Ok? then old(buf[..offset]) + Little(value, byteLength) + old(buf[offset + byteLength..]) else old(buf[..])
  {
    hide LowByte, Trunc, ToInt32, ToUint32, Little, Pow256, Borrow, Digit, Filled, Accepted, WriteCheck;
    Checked(buf.Length, value, offset, byteLength);
    if !Accepted(value, byteLength) {
      return ValueOutOfBounds;
    }
    if offset + byteLength > buf.Length {
      return IndexOutOfRange;
    }
    ghost var was := buf[..];
    LittleStart(value);
    FilledNone(was, offset);
    Put(buf, offset, LowByte(value), was, offset, []);
    var s, mul, sub := 1, 1, 0;
    while s < byteLength
      invariant 1 <= s <= byteLength && mul == Pow256(s - 1)
      invariant sub == Borrow(value, s - 1)
      invariant |Little(value, s)| == s && Filled(buf[..], was, offset, Little(value, s))
    {
      BorrowStep(value, s);
      FilledLast(buf[..], was, offset, Little(value, s));
      var v;
      mul, sub, v := NextDigit(value, mul, sub, buf[offset + s - 1], s);
      ghost var done := Little(value, s);
      LittlePush(value, s);
      Put(buf, offset + s, v, was, offset, done);
      s := s + 1;
      LittlePush(value, s);
    }
    FilledMeans(buf[..], was, offset, Little(value, byteLength));
    return Ok(offset + byteLength);
  }

  lemma FilledLast(now: bytes, was: bytes, start: nat, done: bytes)
    requires Filled(now, was, start, done) && done != []
    ensures |now| == |was| && start + |done| <= |was| && now[start + |done| - 1] == done[|done| - 1]
  {
  }

  lemma FilledMeans(now: bytes, was: bytes, start: nat, done: bytes)
    requires Filled(now, was, start, done)
    ensures start + |done| <= |was| && now == was[..start] + done + was[start + |done|..]
  {
  }

  lemma LittleStart(value: int)
    ensures [] + [LowByte(value)] == Little(value, 1) && Pow256(0) == 1 && Borrow(value, 0) == 0
  {
    LowByteMod(value);
  }

  method ReadIntLE(buf: array<byte>, offset: nat, byteLength: nat) returns (r: Result)
    requires 0 < byteLength <= 6 && offset < TWO_31
    ensures r == if offset + byteLength > buf.Length then IndexOutOfRange else Ok(Signed(buf[offset..offset + byteLength]))
  {
    hide Unsigned, Pow256;
    if offset + byteLength > buf.Length {
      return IndexOutOfRange;
    }
    var value, mul, s := buf[offset] as int, 1, 1;
    UnsignedStart(buf[offset]);
    assert buf[offset..offset + 1] == [buf[offset]];
    while s < byteLength
      invariant 1 <= s <= byteLength && mul == Pow256(s - 1)
      invariant value == Unsigned(buf[offset..offset + s])
    {
      NextPower(s);
      mul := mul * 256;
      UnsignedPush(buf[offset..offset + s], buf[offset + s]);
      assert buf[offset..offset + s + 1] == buf[offset..offset + s] + [buf[offset + s]];
      value := value + buf[offset + s] * mul;
      s := s + 1;
    }
    NextPower(byteLength);
    mul := mul * 128;
    if value >= mul {
      value := value - Pow256(byteLength);
    }
    return Ok(value);
  }

  lemma NextPower(s: nat)
    requires s > 0
    ensures Pow256(s) == Pow256(s - 1) * 256
  {
  }

  lemma UnsignedStart(x: byte)
    ensures Unsigned([x]) == x && Pow256(0) == 1
  {
    assert [x][1..] == [];
  }

  /** `now` is `was` with `done` written over it up to `end`. */
  ghost predicate FilledBack(now: bytes, was: bytes, end: nat, done: bytes) {
    |done| <= end <= |was| && now == was[..end - |done|] + done + was[end..]
  }

  lemma FilledBackNone(was: bytes, end: nat)
    requires end <= |was|
    ensures FilledBack(was, was, end, [])
  {
  }

  lemma FilledBackMeans(now: bytes, was: bytes, end: nat, done: bytes)
    requires FilledBack(now, was, end, done)
    ensures |done| <= end <= |was| && now == was[..end - |done|] + done + was[end..]
  {
  }

  lemma FilledBackStep(now: bytes, was: bytes, end: nat, done: bytes, v: byte)
    requires FilledBack(now, was, end, done) && |done| < end
    ensures |now| == |was| && FilledBack(now[end - |done| - 1 := v], was, end, [v] + done)
    ensures done != [] ==> now[end - |done|] == done[0]
  {
  }

  method PutBack(buf: array<byte>, index: nat, v: byte, ghost was: bytes, ghost end: nat, ghost done: bytes)
    requires FilledBack(buf[..], was, end, done) && index == end - |done| - 1
    modifies buf
    ensures FilledBack(buf[..], was, end, [v] + done)
  {
    FilledBackStep(buf[..], was, end, done, v);
    ghost var now := buf[..];
    buf[index] := v;
    assert buf[..] == now[index := v];
  }

  ghost function Big(v: int, n: nat): bytes {
    Reversed(Little(v, n))
  }

  lemma BigPush(v: int, n: nat)
    ensures |Big(v, n)| == n && Big(v, n + 1) == [Digit(v, n)] + Big(v, n)
  {
    LittlePush(v, n);
    ReversedPush(Little(v, n), Digit(v, n));
  }

  method WriteIntBE(buf: array<byte>, value: int, offset: nat, byteLength: nat) returns (r: Result)
    requires offset < TWO_31
    modifies buf
    ensures r == WriteCheck(buf.Length, value, offset, byteLength)
    ensures buf[..] == if r.Ok? then old(buf[..offset]) + Big(value, byteLength) + old(buf[offset + byteLength..]) else old(buf[..])
  {
    hide LowByte, Trunc, ToInt32, ToUint32, Little, Reversed, Big, Pow256, Borrow, Digit, Accepted, WriteCheck, FilledBack;
    Checked(buf.Length, value, offset, byteLength);
    if !Accepted(value, byteLength) {
      return ValueOutOfBounds;
    }
    if offset + byteLength > buf.Length {
      return IndexOutOfRange;
    }
    ghost var was, end := buf[..], offset + byteLength;
    FilledBackNone(was, end);
    BigStart(value);
    var s, mul, sub := byteLength - 1, 1, 0;
    PutBack(buf, offset + s, LowByte(value), was, end, []);
    ghost var k := 1;
    while s > 0
      invariant 0 <= s && 1 <= k == byteLength - s && mul == Pow256(k - 1)
      invariant sub == Borrow(value, k - 1)
      invariant |Big(value, k)| == k && FilledBack(buf[..], was, end, Big(value, k))
    {
      BorrowStep(value, k);
      BigPush(value, k - 1);
      FilledBackStep(buf[..], was, end, Big(value, k), 0);
      assert buf[offset + s] == buf[..][end - k];
      s := s - 1;
      var v;
      mul, sub, v := NextDigit(value, mul, sub, buf[offset + s + 1], k);
      ghost var done := Big(value, k);
      BigPush(value, k);
      PutBack(buf, offset + s, v, was, end, done);
      k := k + 1;
      BigPush(value, k);
    }
    FilledBackMeans(buf[..], was, end, Big(value, byteLength));
    return Ok(offset + byteLength);
  }

  lemma BigStart(value: int)
    ensures [LowByte(value)] + [] == Big(value, 1) && Pow256(0) == 1 && Borrow(value, 0) == 0 && |Big(value, 1)| == 1
  {
    LowByteMod(value);
    assert Little(value, 1) == [value % 256];
    assert [value % 256][1..] == [];
  }

  method ReadIntBE(buf: array<byte>, offset: nat, byteLength: nat) returns (r: Result)
    requires 0 < byteLength <= 6 && offset < TWO_31
    ensures r == if offset + byteLength > buf.Length then IndexOutOfRange else Ok(Signed(Reversed(buf[offset..offset + byteLength])))
  {
    hide Unsigned, Pow256, Reversed;
    if offset + byteLength > buf.Length {
      return IndexOutOfRange;
    }
    ghost var end := offset + byteLength;
    var i := byteLength - 1;
    var value, mul := buf[offset + i] as int, 1;
    UnsignedStart(buf[offset + i]);
    assert buf[end..end] == [] && buf[offset + i..end] == [buf[offset + i]] + buf[end..end];
    ReversedStart(buf[offset + i]);
    while i > 0
      invariant 0 <= i < byteLength && mul == Pow256(byteLength - i - 1)
      invariant value == Unsigned(Reversed(buf[offset + i..end]))
    {
      NextPower(byteLength - i);
      mul := mul * 256;
      i := i - 1;
      ghost var seen := buf[offset + i + 1..end];
      assert buf[offset + i..end] == [buf[offset + i]] + seen;
      ReversedFirst(buf[offset + i], seen);
      UnsignedPush(Reversed(seen), buf[offset + i]);
      value := value + buf[offset + i] * mul;
    }
    NextPower(byteLength);
    mul := mul * 128;
    if value >= mul {
      value := value - Pow256(byteLength);
    }
    return Ok(value);
  }

  lemma ReversedStart(x: byte)
    ensures Reversed([x]) == [x] && [x] + [] == [x]
  {
    assert [x][1..] == [];
  }

  lemma ReversedFirst(x: byte, b: bytes)
    ensures Reversed([x] + b) == Reversed(b) + [x]
  {
    assert ([x] + b)[1..] == b;
  }

  // ---- writing and reading back ----

  /** Whatever the matching writer accepts, the reader returns. */
  method WriteAndReadLE(buf: array<byte>, value: int, offset: nat, byteLength: nat) returns (written: Result, read: Result)
    requires 0 < byteLength <= 6 && offset < TWO_31
    modifies buf
    ensures written == WriteCheck(buf.Length, value, offset, byteLength)
    ensures written.Ok? ==> read == Ok(value)
    ensures forall i | 0 <= i < buf.Length && (!written.Ok? || !(offset <= i < offset + byteLength)) :: buf[i] == old(buf[i])
  {
    hide Little, Signed;
    SignedInverse(value, byteLength);
    ghost var was := buf[..];
    written := WriteIntLE(buf, value, offset, byteLength);
    read := ReadIntLE(buf, offset, byteLength);
    if written.Ok? {
      FilledSize(buf[..], was, offset, Little(value, byteLength));
    }
    assert forall i | 0 <= i < buf.Length :: buf[i] == buf[..][i] && old(buf[i]) == was[i];
  }

  method WriteAndReadBE(buf: array<byte>, value: int, offset: nat, byteLength: nat) returns (written: Result, read: Result)
    requires 0 < byteLength <= 6 && offset < TWO_31
    modifies buf
    ensures written == WriteCheck(buf.Length, value, offset, byteLength)
    ensures written.Ok? ==> read == Ok(value)
    ensures forall i | 0 <= i < buf.Length && (!written.Ok? || !(offset <= i < offset + byteLength)) :: buf[i] == old(buf[i])
  {
    hide Little, Signed, Reversed;
    SignedInverse(value, byteLength);
    ReversedTwice(Little(value, byteLength));
    ghost var was := buf[..];
    written := WriteIntBE(buf, value, offset, byteLength);
    read := ReadIntBE(buf, offset, byteLength);
    if written.Ok? {
      FilledSize(buf[..], was, offset, Big(value, byteLength));
    }
    assert forall i | 0 <= i < buf.Length :: buf[i] == buf[..][i] && old(buf[i]) == was[i];
  }
}
