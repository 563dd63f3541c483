/** Scheduled writer operations and the functions they call. */
module Ops {
  import opened Bits
  import opened Varints
  import opened Reading
  import opened Buffers
  import Utf8

  datatype Fn = Noop | WriteByte | WriteVarint32 | WriteVarint64 | WriteFixed32 | WriteBytes | WriteUtf8

  datatype Val = Nothing | Word(w: word) | Pair(l: Long) | Data(b: bytes) | Str(u: Utf8.Units)

  /** The bytes that a call of `fn` on a value writes. */
  function Output(fn: Fn, val: Val): bytes {
    match fn
    case Noop => []
    case WriteByte => if val.Word? then [val.w % 0x100] else []
    case WriteVarint32 => if val.Word? then Varint(val.w) else []
    case WriteVarint64 => if val.Pair? then Varint(val.l.Value()) else []
    case WriteFixed32 => if val.Word? then Fixed32(val.w) else []
    case WriteBytes => if val.Data? then val.b else []
    case WriteUtf8 => if val.Str? then Utf8.Encode(val.u) else []
  }

  predicate Suits(fn: Fn, val: Val) {
    match fn
    case Noop => true
    case WriteByte | WriteVarint32 | WriteFixed32 => val.Word?
    case WriteVarint64 => val.Pair?
    case WriteBytes => val.Data?
    case WriteUtf8 => val.Str?
  }

  class Op {
    const fn: Fn
    const len: nat
    var val: Val
    var next: Op?
    /** What the operation was scheduled to write. */
    ghost const out: bytes

    constructor (fn: Fn, len: nat, val: Val)
      ensures this.fn == fn && this.len == len && this.val == val && next == null
      ensures out == Output(fn, val)
    {
      this.fn := fn;
      this.len := len;
      this.val := val;
      next := null;
      out := Output(fn, val);
    }

    /** Not run yet: the operation still writes what it was scheduled for, in `len` bytes. */
    ghost predicate Ready()
      reads this`val
    {
      Suits(fn, val) && out == Output(fn, val) && |out| == len
    }

    /** Runs the operation; the value of a 64-bit varint is used up on the way. */
    method Run(buffer: array<byte>, offset: nat)
      requires Ready() && offset + len <= buffer.Length
      modifies this`val, buffer
      ensures Filled(buffer[..], old(buffer[..]), offset, out)
    {
      hide Filled, Varint, Fixed32, Utf8.Encode;
      ghost var was := buffer[..];
      FilledNone(was, offset);
      match fn
      case Noop =>
      case WriteByte => PutByte(val.w, buffer, offset);
      case WriteVarint32 => PutVarint32(val.w, buffer, offset);
      case WriteVarint64 => PutVarint64(buffer, offset);
      case WriteFixed32 => PutFixed32(val.w, buffer, offset);
      case WriteBytes => PutBytes(val.b, buffer, offset);
      case WriteUtf8 =>
        var n := Utf8.Write(val.u, buffer, offset);
    }

    /** `writeVarint64`: groups leave from the low end while both words are shifted in place. */
    method PutVarint64(buffer: array<byte>, offset: nat)
      requires val.Pair? && offset + |Varint(val.l.Value())| <= buffer.Length
      modifies this`val, buffer
      ensures Filled(buffer[..], old(buffer[..]), offset, Varint(old(val.l.Value())))
    {
      hide Filled, Varint, And, Or, ToUint32, Pow2, Output, Suits;
      ghost var was, n := buffer[..], val.l.Value();
      ghost var done: bytes := [];
      FilledNone(was, offset);
      assert done + Varint(n) == Varint(n);
      var pos := offset;
      while val.l.hi != 0
        invariant val.Pair? && pos == offset + |done|
        invariant done + Varint(val.l.Value()) == Varint(n)
        invariant Filled(buffer[..], was, offset, done)
        decreases val.l.hi
      {
        var l := val.l;
        LowGroup(l.lo);
        ShiftLong(l);
        VarintStep(done, l.Value());
        FilledSize(buffer[..], was, offset, done);
        Put(buffer, pos, Or(And(l.lo, 127), 128), was, offset, done);
        pos := pos + 1;
        done := done + [l.lo % 128 + 128];
        val := Pair(Long(Or(l.lo / 128, ToUint32(l.hi * 0x200_0000)), l.hi / 128));
      }
      while val.l.lo > 127
        invariant val.Pair? && val.l.hi == 0 && pos == offset + |done|
        invariant done + Varint(val.l.Value()) == Varint(n)
        invariant Filled(buffer[..], was, offset, done)
        decreases val.l.lo
      {
        var lo := val.l.lo;
        LowGroup(lo);
        VarintStep(done, lo);
        Put(buffer, pos, Or(And(lo, 127), 128), was, offset, done);
        pos := pos + 1;
        done := done + [lo % 128 + 128];
        val := Pair(Long(lo / 128, 0));
      }
      VarintLast(val.l.lo);
      Put(buffer, pos, val.l.lo, was, offset, done);
    }
  }

  /** One group off the low end of a pair of words. */
  lemma ShiftLong(l: Long)
    ensures var lo := Or(l.lo / 128, ToUint32(l.hi * 0x200_0000));
      lo < TWO_32 && Long(lo, l.hi / 128).Value() == l.Value() / 128 && l.Value() % 128 == l.lo % 128
    ensures l.hi != 0 ==> l.Value() > 127
  {
    hide Or, Pow2;
    SevenTable();
    var low := l.hi % 128;
    assert ToUint32(l.hi * 0x200_0000) == low * 0x200_0000;
    Pow2TwentyFive();
    OrDisjoint(l.lo / 128, low, 25);
    DivUnique(l.Value(), 128, l.lo / 128 + low * 0x200_0000 + TWO_32 * (l.hi / 128), l.lo % 128);
  }

  lemma Pow2TwentyFive()
    ensures Pow2(25) == 0x200_0000
  {
    SevenTable();
    assert Pow2(26) == 2 * Pow2(25) && Pow2(27) == 2 * Pow2(26) && Pow2(28) == 2 * Pow2(27);
  }

  lemma VarintStep(done: bytes, n: nat)
    requires n > 127
    ensures |Varint(n)| == 1 + |Varint(n / 128)|
    ensures (done + [n % 128 + 128]) + Varint(n / 128) == done + Varint(n)
  {
    assert Varint(n) == [n % 128 + 128] + Varint(n / 128);
  }

  lemma VarintLast(n: nat)
    requires n <= 127
    ensures Varint(n) == [n]
  {
  }

  /** `writeByte`. */
  method PutByte(v: word, buffer: array<byte>, offset: nat)
    requires offset < buffer.Length
    modifies buffer
    ensures Filled(buffer[..], old(buffer[..]), offset, [v % 0x100])
  {
    hide And, Filled;
    ByteMask(v);
    FilledNone(buffer[..], offset);
    Put(buffer, offset, And(v, 255), buffer[..], offset, []);
    assert [] + [v % 0x100] == [v % 0x100];
  }

  lemma ByteMask(v: nat)
    ensures And(v, 255) == v % 0x100
  {
    assert Pow2(8) == 0x100;
    AndMask(v, 8);
  }

  /** `writeVarint32`. */
  method PutVarint32(v: word, buffer: array<byte>, offset: nat)
    requires offset + |Varint(v)| <= buffer.Length
    modifies buffer
    ensures Filled(buffer[..], old(buffer[..]), offset, Varint(v))
  {
    hide Filled, Varint, And, Or;
    ghost var was := buffer[..];
    ghost var done: bytes := [];
    FilledNone(was, offset);
    assert done + Varint(v) == Varint(v);
    var val, pos := v, offset;
    while val > 127
      invariant pos == offset + |done|
      invariant done + Varint(val) == Varint(v)
      invariant Filled(buffer[..], was, offset, done)
    {
      LowGroup(val);
      VarintStep(done, val);
      FilledSize(buffer[..], was, offset, done);
      Put(buffer, pos, Or(And(val, 127), 128), was, offset, done);
      pos := pos + 1;
      done := done + [val % 128 + 128];
      val := val / 128;
    }
    VarintLast(val);
    Put(buffer, pos, val, was, offset, done);
  }

  /** `writeFixed32`. */
  method PutFixed32(v: word, buffer: array<byte>, offset: nat)
    requires offset + 4 <= buffer.Length
    modifies buffer
    ensures Filled(buffer[..], old(buffer[..]), offset, Fixed32(v))
  {
    hide And, Filled;
    ghost var was, f := buffer[..], Fixed32(v);
    FilledNone(was, offset);
    ByteMask(v);
    ByteMask(v / 0x100);
    ByteMask(v / 0x1_0000);
    Put(buffer, offset, And(v, 255), was, offset, []);
    Put(buffer, offset + 1, And(v / 0x100, 255), was, offset, [] + [f[0]]);
    Put(buffer, offset + 2, And(v / 0x1_0000, 255), was, offset, [] + [f[0]] + [f[1]]);
    Put(buffer, offset + 3, v / 0x100_0000, was, offset, [] + [f[0]] + [f[1]] + [f[2]]);
    assert [] + [f[0]] + [f[1]] + [f[2]] + [f[3]] == f;
  }

  /** `writeBytes`. */
  method PutBytes(b: bytes, buffer: array<byte>, offset: nat)
    requires offset + |b| <= buffer.Length
    modifies buffer
    ensures Filled(buffer[..], old(buffer[..]), offset, b)
  {
    hide Filled;
    ghost var was := buffer[..];
    FilledNone(was, offset);
    var i := 0;
    while i < |b|
      invariant i <= |b|
      invariant Filled(buffer[..], was, offset, b[..i])
    {
      FilledSize(buffer[..], was, offset, b[..i]);
      Put(buffer, offset + i, b[i], was, offset, b[..i]);
      assert b[..i] + [b[i]] == b[..i + 1];
      i := i + 1;
    }
    assert b[..i] == b;
  }
}
