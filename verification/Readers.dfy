/** The reader as an object with a moving cursor, and the generated decoder that drives it. Every
    method is tied to its function of the buffer and the cursor. */
module Readers {
  import opened Wrappers
  import opened Bits
  import opened Varints
  import opened Reading
  import opened Schemas
  import opened Decoding
  import opened Longs
  import Utf8

  /** A returned value, or the exception thrown. */
  datatype Result<+T> = Ok(val: T) | Thrown(error: Error)

  /** A method that started at a cursor did what the function says. */
  predicate Agrees<T(==)>(r: Result<T>, pos: nat, spec: Read<T>) {
    match spec
    case Throw(e) => r == Thrown(e)
    case Got(v, p) => r == Ok(v) && pos == p
  }

  class Reader {
    const buf: bytes
    var pos: nat

    constructor (buffer: bytes)
      ensures buf == buffer && pos == 0
    {
      buf := buffer;
      pos := 0;
    }

    /** One of the five lines of `uint32`: joins the next group and tells whether it is the
        last. A missing byte is `undefined`, which masks to zero and is not below 128. */
    method JoinGroup(i: nat, v: nat) returns (w: nat, last: bool)
      requires i <= 4 && v < Weight(i)
      modifies this`pos
      ensures w == Uint32Join(i, v, Group(buf, old(pos))) && last == Ends(buf, old(pos)) && pos == old(pos) + 1
    {
      hide And, Or;
      var b: nat := if pos < |buf| then buf[pos] else 0;
      LowGroup(b);
      LowFour(b);
      var g := if i < 4 then And(b, 127) else And(b, 15);
      Scaled(i, g, v);
      w := Or(v, if i == 0 then g else if i == 1 then g * 0x80 else if i == 2 then g * 0x4000
                 else if i == 3 then g * 0x20_0000 else g * 0x1000_0000);
      last := pos < |buf| && buf[pos] < 128;
      pos := pos + 1;
    }

    method Uint32() returns (r: Result<word>)
      modifies this`pos
      ensures Agrees(r, pos, ReadUint32(buf, old(pos)))
      ensures r.Thrown? ==> pos == |buf|
    {
      hide Group, Ends, Uint32Join, Uint32From, Weight;
      WeightsGrow();
      var value: nat, last := JoinGroup(0, 0);
      Uint32Unfold(buf, old(pos), 0, 0);
      if last {
        return Ok(value);
      }
      Uint32Unfold(buf, pos, 1, value);
      value, last := JoinGroup(1, value);
      if last {
        return Ok(value);
      }
      Uint32Unfold(buf, pos, 2, value);
      value, last := JoinGroup(2, value);
      if last {
        return Ok(value);
      }
      Uint32Unfold(buf, pos, 3, value);
      value, last := JoinGroup(3, value);
      if last {
        return Ok(value);
      }
      Uint32Unfold(buf, pos, 4, value);
      value, last := JoinGroup(4, value);
      if last {
        return Ok(value);
      }
      Uint32Tail(buf, pos, value);
      pos := pos + 5;
      if pos > |buf| {
        pos := |buf|;
        return Thrown(IndexOutOfRange);
      }
      return Ok(value);
    }

    method Int32() returns (r: Result<int>)
      modifies this`pos
      ensures Agrees(r, pos, ReadInt32(buf, old(pos)))
    {
      hide ReadUint32;
      var v := Uint32();
      match v
      case Thrown(e) => return Thrown(e);
      case Ok(w) => return Ok(ToInt32(w));
    }

    /** `value >>> 1 ^ -(value & 1) | 0`. */
    method Sint32() returns (r: Result<int>)
      modifies this`pos
      ensures Agrees(r, pos, ReadSint32(buf, old(pos)))
    {
      hide ReadUint32, And, Xor;
      var v := Uint32();
      match v
      case Thrown(e) => return Thrown(e);
      case Ok(w) =>
        LongBits.OddBit(w);
        var mask := ToUint32(-(And(w, 1) as int));
        XorWord(w / 2, mask);
        return Ok(ToInt32(Xor(w / 2, mask)));
    }

    method Bool() returns (r: Result<bool>)
      modifies this`pos
      ensures Agrees(r, pos, ReadBool(buf, old(pos)))
    {
      hide ReadUint32;
      var v := Uint32();
      match v
      case Thrown(e) => return Thrown(e);
      case Ok(w) => return Ok(w != 0);
    }

    /** The fifth byte of a long varint, shared between the words. */
    method JoinFifth(v: nat) returns (lo: nat, hi: nat, last: bool)
      requires v < Weight(4)
      modifies this`pos
      ensures lo == v + Group(buf, old(pos)) % 16 * 0x1000_0000 && hi == Group(buf, old(pos)) / 16
      ensures last == Ends(buf, old(pos)) && pos == old(pos) + 1
    {
      hide And, Or;
      var b: nat := if pos < |buf| then buf[pos] else 0;
      LowGroup(b);
      var g := And(b, 127);
      assert ToUint32(g * 0x1000_0000) == g % 16 * 0x1000_0000;
      Scaled(4, g % 16, v);
      lo := Or(v, ToUint32(g * 0x1000_0000));
      hi := g / 16;
      last := pos < |buf| && buf[pos] < 128;
      pos := pos + 1;
    }

    /** The sixth to tenth byte. */
    method JoinHigh(i: nat, v: nat) returns (w: nat, last: bool)
      requires i <= 4 && v < 8 * Weight(i)
      modifies this`pos
      ensures w == LongHighJoin(i, v, Group(buf, old(pos))) && last == Ends(buf, old(pos)) && pos == old(pos) + 1
    {
      hide And, Or;
      var b: nat := if pos < |buf| then buf[pos] else 0;
      LowGroup(b);
      var g := And(b, 127);
      HighShift(i, g);
      ScaledHigh(i, if i < 4 then g else g % 2, v);
      w := Or(v, ToUint32(if i == 0 then g * 8 else if i == 1 then g * 0x400 else if i == 2 then g * 0x2_0000
                          else if i == 3 then g * 0x100_0000 else g * 0x8000_0000));
      last := pos < |buf| && buf[pos] < 128;
      pos := pos + 1;
    }

    method ReadLongVarint() returns (r: Result<Long>)
      modifies this`pos
      ensures Agrees(r, pos, ReadLong(buf, old(pos)))
    {
      hide Group, Ends, LongHigh, LongLow, LongShort, Uint32Join, Weight, Scale;
      WeightsGrow();
      var lo: nat, hi: nat, i, last := 0, 0, 0, false;
      if |buf| > pos + 4 {
        while i < 4
          invariant 0 <= i <= 4 && lo < Weight(i) && pos + 5 - i <= |buf|
          invariant LongLow(buf, old(pos), 0, 0) == LongLow(buf, pos, i, lo)
        {
          LongLowUnfold(buf, pos, i, lo);
          lo, last := JoinGroup(i, lo);
          if last {
            return Ok(Long(lo, 0));
          }
          i := i + 1;
        }
        LongFifthUnfold(buf, pos, lo);
        lo, hi, last := JoinFifth(lo);
        if last {
          return Ok(Long(lo, hi));
        }
        i := 0;
      } else {
        while i < 3
          invariant 0 <= i <= 3 && lo < Weight(i) && (i > 0 ==> pos <= |buf|)
          invariant LongShort(buf, old(pos), 0, 0) == LongShort(buf, pos, i, lo)
        {
          LongShortUnfold(buf, pos, i, lo);
          if pos >= |buf| {
            return Thrown(IndexOutOfRange);
          }
          lo, last := JoinGroup(i, lo);
          if last {
            return Ok(Long(lo, 0));
          }
          i := i + 1;
        }
        LongShortUnfold(buf, pos, 3, lo);
        lo, last := JoinGroup(3, lo);
        return Ok(Long(lo, 0));
      }
      ghost var start, first := pos, hi;
      if |buf| > pos + 4 {
        while i < 5
          invariant 0 <= i <= 5 && (i < 5 ==> hi < 8 * Weight(i)) && hi < TWO_32 && pos + 5 - i <= |buf|
          invariant LongHigh(buf, start, 0, lo, first, false) == LongHigh(buf, pos, i, lo, hi, false)
        {
          LongHighUnfold(buf, pos, i, lo, hi, false);
          hi, last := JoinHigh(i, hi);
          if last {
            return Ok(Long(lo, hi));
          }
          i := i + 1;
        }
        LongHighUnfold(buf, pos, 5, lo, hi, false);
      } else {
        while i < 5
          invariant 0 <= i <= 5 && (i < 5 ==> hi < 8 * Weight(i)) && hi < TWO_32
          invariant LongHigh(buf, start, 0, lo, first, true) == LongHigh(buf, pos, i, lo, hi, true)
        {
          LongHighUnfold(buf, pos, i, lo, hi, true);
          if pos >= |buf| {
            return Thrown(IndexOutOfRange);
          }
          hi, last := JoinHigh(i, hi);
          if last {
            return Ok(Long(lo, hi));
          }
          i := i + 1;
        }
        LongHighUnfold(buf, pos, 5, lo, hi, true);
      }
      return Thrown(InvalidVarint);
    }

    /** `readFixed32_end`: the four bytes before `end`. */
    method Fixed32End(end: nat) returns (v: word)
      requires 4 <= end <= |buf|
      ensures v == FromFour(buf[end - 4], buf[end - 3], buf[end - 2], buf[end - 1])
    {
      hide Or;
      OrFour(buf[end - 4], buf[end - 3], buf[end - 2], buf[end - 1]);
      v := Or(Or(Or(buf[end - 4], buf[end - 3] as int * 0x100), buf[end - 2] as int * 0x1_0000), buf[end - 1] as int * 0x100_0000);
    }

    method Fixed32() returns (r: Result<word>)
      modifies this`pos
      ensures Agrees(r, pos, ReadFixed32(buf, old(pos)))
    {
      if pos + 4 > |buf| {
        return Thrown(IndexOutOfRange);
      }
      pos := pos + 4;
      var v := Fixed32End(pos);
      return Ok(v);
    }

    method Sfixed32() returns (r: Result<int>)
      modifies this`pos
      ensures Agrees(r, pos, Mapped(ReadFixed32(buf, old(pos)), w => ToInt32(w)))
    {
      hide ReadFixed32;
      var v := Fixed32();
      match v
      case Thrown(e) => return Thrown(e);
      case Ok(w) => return Ok(ToInt32(w));
    }

    method Fixed64() returns (r: Result<Long>)
      modifies this`pos
      ensures Agrees(r, pos, ReadFixed64(buf, old(pos)))
    {
      if pos + 8 > |buf| {
        return Thrown(IndexOutOfRange);
      }
      pos := pos + 4;
      var lo := Fixed32End(pos);
      pos := pos + 4;
      var hi := Fixed32End(pos);
      return Ok(Long(lo, hi));
    }

    /** A float or a double, as its bytes. */
    method RawBytes(n: nat) returns (r: Result<bytes>)
      modifies this`pos
      ensures Agrees(r, pos, ReadRaw(buf, old(pos), n))
    {
      if pos + n > |buf| {
        return Thrown(IndexOutOfRange);
      }
      pos := pos + n;
      return Ok(buf[pos - n..pos]);
    }

    method Bytes() returns (r: Result<bytes>)
      modifies this`pos
      ensures Agrees(r, pos, ReadBytes(buf, old(pos)))
    {
      hide ReadUint32;
      var v := Uint32();
      match v
      case Thrown(e) => return Thrown(e);
      case Ok(length) =>
        var start, end := pos, pos + length;
        if end > |buf| {
          return Thrown(IndexOutOfRange);
        }
        pos := pos + length;
        return Ok(buf[start..end]);
    }

    method String() returns (r: Result<Utf8.Units>)
      modifies this`pos
      ensures Agrees(r, pos, Decoding.ReadString(buf, old(pos)))
    {
      hide ReadBytes, Utf8.Read;
      var v := Bytes();
      match v
      case Thrown(e) => return Thrown(e);
      case Ok(b) =>
        var u := Utf8.ReadString(b, 0, |b|);
        return Ok(u);
    }

    /** `skip(length)`. */
    method SkipBytes(length: nat) returns (r: Result<()>)
      modifies this`pos
      ensures Agrees(r, pos, Skip(buf, old(pos), length))
    {
      if pos + length > |buf| {
        return Thrown(IndexOutOfRange);
      }
      pos := pos + length;
      return Ok(());
    }

    /** `skip()` over a varint. */
    method SkipOverVarint() returns (r: Result<()>)
      modifies this`pos
      ensures Agrees(r, pos, SkipVarint(buf, old(pos)))
    {
      hide And;
      var more := true;
      while more
        invariant more ==> SkipVarint(buf, old(pos)) == SkipVarint(buf, pos)
        invariant !more ==> SkipVarint(buf, old(pos)) == Got((), pos)
        decreases more, |buf| - pos
      {
        if pos >= |buf| {
          return Thrown(IndexOutOfRange);
        }
        TopBit(buf[pos]);
        more := And(buf[pos], 128) != 0;
        pos := pos + 1;
      }
      return Ok(());
    }

    method SkipElement(wireType: nat) returns (r: Result<()>)
      modifies this`pos
      ensures Agrees(r, pos, SkipType(buf, old(pos), wireType))
      ensures r.Ok? ==> old(pos) <= pos <= |buf|
      decreases |buf| - pos
    {
      hide ReadUint32, SkipVarint;
      if wireType == 0 {
        r := SkipOverVarint();
      } else if wireType == 1 {
        r := SkipBytes(8);
      } else if wireType == 2 {
        var v := Uint32();
        match v
        case Thrown(e) => return Thrown(e);
        case Ok(n) => r := SkipBytes(n);
      } else if wireType == 3 {
        while true
          invariant old(pos) <= pos
          invariant SkipGroup(buf, old(pos)) == SkipGroup(buf, pos)
          decreases |buf| - pos
        {
          var tag := Uint32();
          match tag
          case Thrown(e) => return Thrown(e);
          case Ok(w) =>
            if w % 8 == 4 {
              return Ok(());
            }
            var skipped := SkipElement(w % 8);
            if skipped.Thrown? {
              return skipped;
            }
        }
      } else if wireType == 5 {
        r := SkipBytes(4);
      } else {
        return Thrown(InvalidWireType);
      }
    }

    /** `readLongVarint().zzDecode()`. */
    method Sint64() returns (r: Result<Long>)
      modifies this`pos
      ensures Agrees(r, pos, Mapped(ReadLong(buf, old(pos)), l => ZigZagLongDecode(l)))
    {
      hide ReadLong, ZigZagLongDecode;
      var v := ReadLongVarint();
      match v {
        case Thrown(e) => return Thrown(e);
        case Ok(l) =>
          var bits := new LongBits(l.lo, l.hi);
          LongBits.Word(l.lo);
          LongBits.Word(l.hi);
          bits.ZzDecode();
          return Ok(bits.Val());
      }
    }

    /** `r[type]()` for a basic type. */
    method Scalar(s: Schemas.Scalar) returns (r: Result<Value>)
      modifies this`pos
      ensures Agrees(r, pos, ReadScalar(s, buf, old(pos)))
    {
      hide ReadUint32, ReadLong, ReadFixed32, ReadBytes, ReadInt32, ReadSint32, ReadBool, ReadFixed64, ReadRaw, Decoding.ReadString;
      match s
      case Int32 =>
        var v := Int32();
        r := Lift(v, n => Num(n));
      case Uint32 =>
        var v := Uint32();
        r := Lift(v, n => Num(n));
      case Sint32 =>
        var v := Sint32();
        r := Lift(v, n => Num(n));
      case Fixed32Type =>
        var v := Fixed32();
        r := Lift(v, n => Num(n));
      case Sfixed32 =>
        var v := Sfixed32();
        r := Lift(v, n => Num(n));
      case Bool =>
        var v := Bool();
        r := Lift(v, b => Flag(b));
      case String =>
        var v := String();
        r := Lift(v, u => Text(u));
      case _ => r := WideScalar(s);
    }

    /** The basic types of more than four bytes, and the opaque ones. */
    method WideScalar(s: Schemas.Scalar) returns (r: Result<Value>)
      requires s in {Int64, Uint64, Schemas.Sint64, Fixed64Type, Sfixed64, Double, Float, Schemas.Bytes}
      modifies this`pos
      ensures Agrees(r, pos, ReadScalar(s, buf, old(pos)))
    {
      hide ReadUint32, ReadLong, ReadBytes, ReadFixed64, ReadRaw;
      if s.Sint64? {
        var v := Sint64();
        r := Lift(v, l => Big(l));
      } else if s.Fixed64Type? || s.Sfixed64? {
        var v := Fixed64();
        r := Lift(v, l => Big(l));
      } else if s.Double? {
        var v := RawBytes(8);
        r := Lift(v, b => Raw(b));
      } else if s.Float? {
        var v := RawBytes(4);
        r := Lift(v, b => Raw(b));
      } else if s.Bytes? {
        var v := Bytes();
        r := Lift(v, b => Octets(b));
      } else {
        var v := ReadLongVarint();
        r := Lift(v, l => Big(l));
      }
    }

    /** The generated decoder of message type `t`; no length means up to the end of the buffer. */
    method Decode(d: Schema, t: nat, length: Option<nat>) returns (r: Result<Message>)
      modifies this`pos
      ensures Agrees(r, pos, DecodeLoop(d, t, buf, old(pos), if length.None? then |buf| else old(pos) + length.value, EMPTY))
      decreases |buf| + 1 - pos, 0
    {
      hide ReadUint32, SkipType, Decoding.DecodeField;
      var c := if length.None? then |buf| else pos + length.value;
      var m := EMPTY;
      while pos < c
        invariant old(pos) <= pos && (pos == old(pos) || pos <= |buf| + 1)
        invariant DecodeLoop(d, t, buf, old(pos), c, EMPTY) == DecodeLoop(d, t, buf, pos, c, m)
        decreases |buf| + 1 - pos
      {
        var tag := Uint32();
        match tag
        case Thrown(e) => return Thrown(e);
        case Ok(w) =>
          if TypeAt(d, t).group && w % 8 == 4 {
            break;
          }
          var f := ReadField(d, t, w, m);
          match f
          case Thrown(e) => return Thrown(e);
          case Ok(m') => m := m';
      }
      var missing := Missing(TypeAt(d, t), m);
      return if missing then Thrown(MissingRequired) else Ok(m);
    }

    /** The presence checks at the end of a generated decoder. */
    method Missing(ty: MessageType, m: Message) returns (missing: bool)
      ensures missing <==> exists f :: f in ty.fields && f.shape.Required? && f.id !in m.fields
    {
      var i := 0;
      while i < |ty.fields|
        invariant i <= |ty.fields|
        invariant forall f | f in ty.fields[..i] :: f.shape.Required? ==> f.id in m.fields
      {
        if ty.fields[i].shape.Required? && ty.fields[i].id !in m.fields {
          return true;
        }
        i := i + 1;
      }
      assert ty.fields[..i] == ty.fields;
      return false;
    }

    /** One case of the `switch`. */
    method ReadField(d: Schema, t: nat, tag: nat, m: Message) returns (r: Result<Message>)
      modifies this`pos
      ensures Agrees(r, pos, Decoding.DecodeField(d, t, tag, buf, old(pos), m))
      decreases |buf| + 1 - pos, 2
    {
      hide ReadUint32, SkipType, Find, DecodePacked, Decoding.DecodeValue, DecodeEntry;
      var found := Find(TypeAt(d, t).fields, tag / 8);
      if found.None? {
        var skipped := SkipElement(tag % 8);
        r := Lift(skipped, _ => m);
        return;
      }
      var f := found.value;
      if f.shape.Map? {
        r := ReadEntry(d, f, m);
      } else if f.shape.Repeated? && Packable(f.kind) && tag % 8 == 2 {
        var n := Uint32();
        match n
        case Thrown(e) => return Thrown(e);
        case Ok(length) =>
          var vs := ReadPacked(f.kind.scalar, pos + length);
          match vs
          case Thrown(e) => return Thrown(e);
          case Ok(values) => return Ok(WithMany(m, f.id, values));
      } else {
        var v := ReadValue(d, f.kind, true);
        match v
        case Thrown(e) => return Thrown(e);
        case Ok(value) => return Ok(if f.shape.Repeated? then WithMany(m, f.id, [value]) else WithOne(m, f.id, value));
      }
    }

    /** The loop over a packed array. */
    method ReadPacked(s: Schemas.Scalar, end: nat) returns (r: Result<seq<Value>>)
      modifies this`pos
      ensures Agrees(r, pos, DecodePacked(s, buf, old(pos), end, []))
    {
      hide ReadScalar;
      var vs: seq<Value> := [];
      while pos < end
        invariant DecodePacked(s, buf, old(pos), end, []) == DecodePacked(s, buf, pos, end, vs)
        decreases |buf| + 1 - pos
      {
        var v := Scalar(s);
        match v
        case Thrown(e) => return Thrown(e);
        case Ok(value) => vs := vs + [value];
      }
      return Ok(vs);
    }

    /** `r.skip().pos++`, the key, `r.pos++`, the value. */
    method ReadEntry(d: Schema, f: Field, m: Message) returns (r: Result<Message>)
      modifies this`pos
      ensures Agrees(r, pos, DecodeEntry(d, f, buf, old(pos), m))
      decreases |buf| + 1 - pos, 1
    {
      hide SkipVarint, Decoding.ReadString, Decoding.DecodeValue;
      var skipped := SkipOverVarint();
      if skipped.Thrown? {
        return Thrown(skipped.error);
      }
      pos := pos + 1;
      var k := String();
      match k
      case Thrown(e) => return Thrown(e);
      case Ok(key) =>
        pos := pos + 1;
        var v := ReadValue(d, f.kind, false);
        match v
        case Thrown(e) => return Thrown(e);
        case Ok(value) => return Ok(WithEntry(m, f.id, Entry(key, value)));
    }

    method ReadValue(d: Schema, k: Kind, groups: bool) returns (r: Result<Value>)
      modifies this`pos
      ensures Agrees(r, pos, Decoding.DecodeValue(d, k, groups, buf, old(pos)))
      decreases |buf| + 1 - pos, 1
    {
      hide ReadUint32, ReadScalar, DecodeLoop;
      match k
      case Basic(s) => r := Scalar(s);
      case Ref(u) =>
        if groups && TypeAt(d, u).group {
          var m := Decode(d, u, None);
          r := Lift(m, sub => Sub(sub));
        } else {
          var n := Uint32();
          match n
          case Thrown(e) => return Thrown(e);
          case Ok(length) =>
            var m := Decode(d, u, Some(length));
            r := Lift(m, sub => Sub(sub));
        }
    }
  }

  function Uint32Join(i: nat, v: nat, g: nat): (w: nat)
    requires i <= 4
  {
    if i < 4 then v + Scale(i, g) else v + g % 16 * 0x1000_0000
  }

  lemma Uint32Unfold(buf: bytes, pos: nat, i: nat, v: nat)
    requires i <= 4 && v < Weight(i)
    ensures var w := Uint32Join(i, v, Group(buf, pos));
      && w < TWO_32 && (i < 4 ==> w < Weight(i + 1))
      && Uint32From(buf, pos, i, v) == if Ends(buf, pos) then Got(w, pos + 1) else Uint32From(buf, pos + 1, i + 1, w)
  {
    if i < 4 {
      WeightBound(i, v, Group(buf, pos));
    }
  }

  lemma Uint32Tail(buf: bytes, pos: nat, v: nat)
    requires v < TWO_32
    ensures Uint32From(buf, pos, 5, v) == if pos + 5 > |buf| then Throw(IndexOutOfRange) else Got(v, pos + 5)
  {
  }

  lemma WeightsGrow()
    ensures Weight(0) == 1
  {
  }

  /** Joining the i-th group of seven bits. */
  lemma Scaled(i: nat, g: nat, v: nat)
    requires i <= 4 && v < Weight(i)
    ensures Or(v, Scale(i, g)) == v + Scale(i, g)
  {
    hide Or, Pow2;
    SevenTable();
    PowZero();
    OrDisjoint(v, g, 7 * i);
  }

  lemma PowZero()
    ensures Pow2(0) == 1
  {
  }

  lemma LowFour(b: nat)
    ensures And(b, 15) == b % 16 == b % 128 % 16
  {
    hide And;
    assert Pow2(4) == 16;
    AndMask(b, 4);
    DivUnique(b, 16, 8 * (b / 128) + b % 128 / 16, b % 128 % 16);
  }

  function LongHighJoin(i: nat, v: nat, g: nat): nat
    requires i <= 4
  {
    if i < 4 then v + 8 * Scale(i, g) else v + g % 2 * TWO_31
  }

  lemma HighShift(i: nat, g: nat)
    requires i <= 4 && g < 128
    ensures i < 4 ==> 8 * Scale(i, g) < TWO_32
    ensures ToUint32(g * 0x8000_0000) == g % 2 * TWO_31
  {
  }

  lemma ScaledHigh(i: nat, g: nat, v: nat)
    requires i <= 4 && v < 8 * Weight(i)
    ensures Or(v, 8 * Scale(i, g)) == v + 8 * Scale(i, g)
  {
    hide Or, Pow2;
    HighPowers();
    OrDisjoint(v, g, 7 * i + 3);
  }

  lemma HighPowers()
    ensures Pow2(3) == 8 && Pow2(10) == 0x400 && Pow2(17) == 0x2_0000 && Pow2(24) == 0x100_0000 && Pow2(31) == 0x8000_0000
  {
    WordPowers();
    Pow2Twentyfour();
    Pow2Seven(3);
    Pow2Seven(10);
  }

  lemma LongLowUnfold(buf: bytes, pos: nat, i: nat, lo: nat)
    requires i < 4 && lo < Weight(i) && pos + 5 - i <= |buf|
    ensures var w := Uint32Join(i, lo, Group(buf, pos));
      && w < Weight(i + 1) && w < TWO_32
      && LongLow(buf, pos, i, lo) == if Ends(buf, pos) then Got(Long(w, 0), pos + 1) else LongLow(buf, pos + 1, i + 1, w)
  {
    hide Group;
    WeightBound(i, lo, Group(buf, pos));
  }

  lemma LongFifthUnfold(buf: bytes, pos: nat, lo: nat)
    requires lo < Weight(4) && pos < |buf|
    ensures var g := Group(buf, pos); var low := lo + g % 16 * 0x1000_0000;
      && low < TWO_32 && g / 16 < 8 && Weight(0) == 1
      && LongLow(buf, pos, 4, lo) == if Ends(buf, pos) then Got(Long(low, g / 16), pos + 1)
                                     else LongHigh(buf, pos + 1, 0, low, g / 16, |buf| <= pos + 5)
  {
  }

  lemma LongShortUnfold(buf: bytes, pos: nat, i: nat, lo: nat)
    requires i <= 3 && lo < Weight(i) && (i > 0 ==> pos <= |buf|)
    ensures var w := Uint32Join(i, lo, Group(buf, pos));
      && w < Weight(i + 1) && w < TWO_32
      && LongShort(buf, pos, i, lo) ==
         if i == 3 then Got(Long(w, 0), pos + 1) else if pos >= |buf| then Throw(IndexOutOfRange)
         else if Ends(buf, pos) then Got(Long(w, 0), pos + 1) else LongShort(buf, pos + 1, i + 1, w)
  {
    hide Group;
    WeightBound(i, lo, Group(buf, pos));
  }

  lemma LongHighUnfold(buf: bytes, pos: nat, i: nat, lo: word, hi: word, checked: bool)
    requires i <= 5 && (i < 5 ==> hi < 8 * Weight(i))
    requires !checked ==> pos + 5 - i <= |buf|
    ensures i == 5 ==> LongHigh(buf, pos, i, lo, hi, checked) == Throw(InvalidVarint)
    ensures i < 5 ==>
      var w := LongHighJoin(i, hi, Group(buf, pos));
      && w < TWO_32 && (i < 4 ==> w < 8 * Weight(i + 1))
      && LongHigh(buf, pos, i, lo, hi, checked) ==
         if checked && pos >= |buf| then Throw(IndexOutOfRange)
         else if Ends(buf, pos) then Got(Long(lo, w), pos + 1) else LongHigh(buf, pos + 1, i + 1, lo, w, checked)
  {
    hide Group;
    if i < 4 {
      HighWeightStep(i, hi, Group(buf, pos), 0);
    }
  }

  lemma OrFour(b0: byte, b1: byte, b2: byte, b3: byte)
    ensures Or(Or(Or(b0, b1 as int * 0x100), b2 as int * 0x1_0000), b3 as int * 0x100_0000) == FromFour(b0, b1, b2, b3)
  {
    hide Or;
    assert Pow2(8) == 0x100;
    assert Pow2(16) == 0x1_0000;
    Pow2Twentyfour();
    OrDisjoint(b0, b1, 8);
    OrDisjoint(b0 + b1 as int * 0x100, b2, 16);
    OrDisjoint(b0 + b1 as int * 0x100 + b2 as int * 0x1_0000, b3, 24);
  }

  lemma Pow2Twentyfour()
    ensures Pow2(24) == 0x100_0000
  {
    SevenTable();
    assert Pow2(22) == 2 * Pow2(21) && Pow2(23) == 2 * Pow2(22) && Pow2(24) == 2 * Pow2(23);
  }

  /** `b & 128`. */
  lemma TopBit(b: byte)
    ensures And(b, 128) != 0 <==> b >= 128
  {
    hide And;
    assert Pow2(1) == 2;
    AndSixteen(b, 8);
    AndFour(b / 16, 2);
    AndDouble(b / 64, 1);
    AndMask(b / 128, 1);
    assert b / 16 / 4 == b / 64 && b / 64 / 2 == b / 128;
  }

  function Lift<A, B>(r: Result<A>, f: A -> B): Result<B> {
    match r
    case Ok(v) => Ok(f(v))
    case Thrown(e) => Thrown(e)
  }
}
