/** What the generated decoder of a message type computes from a buffer and a cursor. Being
    functions, these definitions also show that the decoder ends, with a message or an
    exception, on every byte string and every schema. */
module Decoding {
  import opened Wrappers
  import opened Bits
  import opened Varints
  import opened Reading
  import opened Schemas
  import opened Longs
  import Utf8

  function Mapped<A, B>(r: Read<A>, f: A -> B): Read<B> {
    match r
    case Throw(e) => Throw(e)
    case Got(v, p) => Got(f(v), p)
  }

  function ReadString(buf: bytes, pos: nat): (r: Read<Utf8.Units>)
    ensures r.Got? ==> pos < r.pos <= |buf|
  {
    match ReadBytes(buf, pos)
    case Throw(e) => Throw(e)
    case Got(b, p) => Got(Utf8.Read(b, 0, |b|), p)
  }

  /** The reader method of a basic type. */
  function ReadScalar(s: Scalar, buf: bytes, pos: nat): (r: Read<Value>)
    ensures r.Got? ==> pos < r.pos <= |buf| + 1
  {
    match s
    case Int32 => Mapped(ReadInt32(buf, pos), n => Num(n))
    case Uint32 => Mapped(ReadUint32(buf, pos), n => Num(n))
    case Sint32 => Mapped(ReadSint32(buf, pos), n => Num(n))
    case Fixed32Type => Mapped(ReadFixed32(buf, pos), n => Num(n))
    case Sfixed32 => Mapped(ReadFixed32(buf, pos), n => Num(ToInt32(n)))
    case Int64 | Uint64 => Mapped(ReadLong(buf, pos), l => Big(l))
    case Sint64 => Mapped(ReadLong(buf, pos), l => Big(ZigZagLongDecode(l)))
    case Fixed64Type | Sfixed64 => Mapped(ReadFixed64(buf, pos), l => Big(l))
    case Double => Mapped(ReadRaw(buf, pos, 8), b => Raw(b))
    case Float => Mapped(ReadRaw(buf, pos, 4), b => Raw(b))
    case Bool => Mapped(ReadBool(buf, pos), b => Flag(b))
    case String => Mapped(ReadString(buf, pos), u => Text(u))
    case Bytes => Mapped(ReadBytes(buf, pos), b => Octets(b))
  }

  /** The loop over a packed array, with `vs` read so far. */
  function DecodePacked(s: Scalar, buf: bytes, pos: nat, end: nat, vs: seq<Value>): (r: Read<seq<Value>>)
    ensures r.Got? ==> pos <= r.pos && (r.pos == pos || r.pos <= |buf| + 1)
    decreases |buf| + 1 - pos
  {
    if pos >= end then Got(vs, pos)
    else match ReadScalar(s, buf, pos)
      case Throw(e) => Throw(e)
      case Got(v, p) => DecodePacked(s, buf, p, end, vs + [v])
  }

  /** `decode(r, l)` with the end already worked out; `m` holds what was decoded so far. */
  function DecodeLoop(d: Schema, t: nat, buf: bytes, pos: nat, end: nat, m: Message): (r: Read<Message>)
    ensures r.Got? ==> pos <= r.pos && (r.pos == pos || r.pos <= |buf| + 1)
    decreases |buf| + 1 - pos, 0
  {
    if pos >= end then Checked(TypeAt(d, t), m, pos)
    else match ReadUint32(buf, pos)
      case Throw(e) => Throw(e)
      case Got(tag, p) =>
        if TypeAt(d, t).group && tag % 8 == 4 then Checked(TypeAt(d, t), m, p)
        else match DecodeField(d, t, tag, buf, p, m)
          case Throw(e) => Throw(e)
          case Got(m', q) => DecodeLoop(d, t, buf, q, end, m')
  }

  /** The check for required fields after the loop. */
  function Checked(ty: MessageType, m: Message, pos: nat): (r: Read<Message>)
    ensures r.Got? <==> forall f | f in ty.fields :: f.shape.Required? ==> f.id in m.fields
    ensures r.Got? ==> r == Got(m, pos)
  {
    if forall f | f in ty.fields :: f.shape.Required? ==> f.id in m.fields then Got(m, pos)
    else Throw(MissingRequired)
  }

  /** The `switch` on the field id. */
  function DecodeField(d: Schema, t: nat, tag: nat, buf: bytes, pos: nat, m: Message): (r: Read<Message>)
    ensures r.Got? ==> pos <= r.pos && (r.pos == pos || r.pos <= |buf| + 1)
    decreases |buf| + 1 - pos, 2
  {
    match Find(TypeAt(d, t).fields, tag / 8)
    case None =>
      (match SkipType(buf, pos, tag % 8)
       case Throw(e) => Throw(e)
       case Got(_, p) => Got(m, p))
    case Some(f) =>
      if f.shape.Map? then DecodeEntry(d, f, buf, pos, m)
      else if f.shape.Repeated? && Packable(f.kind) && tag % 8 == 2 then
        match ReadUint32(buf, pos)
        case Throw(e) => Throw(e)
        case Got(n, p) =>
          (match DecodePacked(f.kind.scalar, buf, p, p + n, [])
           case Throw(e) => Throw(e)
           case Got(vs, q) => Got(WithMany(m, f.id, vs), q))
      else
        match DecodeValue(d, f.kind, true, buf, pos)
        case Throw(e) => Throw(e)
        case Got(v, p) => Got(if f.shape.Repeated? then WithMany(m, f.id, [v]) else WithOne(m, f.id, v), p)
  }

  /** A map entry: its length and both of its tags are skipped, not looked at. */
  function DecodeEntry(d: Schema, f: Field, buf: bytes, pos: nat, m: Message): (r: Read<Message>)
    ensures r.Got? ==> pos <= r.pos <= |buf| + 1
    decreases |buf| + 1 - pos, 1
  {
    match SkipVarint(buf, pos)
    case Throw(e) => Throw(e)
    case Got(_, p) =>
      match ReadString(buf, p + 1)
      case Throw(e) => Throw(e)
      case Got(key, q) =>
        match DecodeValue(d, f.kind, false, buf, q + 1)
        case Throw(e) => Throw(e)
        case Got(v, r) => Got(WithEntry(m, f.id, Entry(key, v)), r)
  }

  function DecodeValue(d: Schema, k: Kind, groups: bool, buf: bytes, pos: nat): (r: Read<Value>)
    ensures r.Got? ==> pos <= r.pos && (r.pos == pos || r.pos <= |buf| + 1)
    decreases |buf| + 1 - pos, 1
  {
    match k
    case Basic(s) => ReadScalar(s, buf, pos)
    case Ref(u) =>
      if groups && TypeAt(d, u).group then
        match DecodeLoop(d, u, buf, pos, |buf|, EMPTY)
        case Throw(e) => Throw(e)
        case Got(m, p) => Got(Sub(m), p)
      else
        match ReadUint32(buf, pos)
        case Throw(e) => Throw(e)
        case Got(n, p) =>
          match DecodeLoop(d, u, buf, p, p + n, EMPTY)
          case Throw(e) => Throw(e)
          case Got(m, q) => Got(Sub(m), q)
  }

  /** `decode(reader)` on a whole buffer. */
  function Decode(d: Schema, t: nat, buf: bytes): (r: Read<Message>)
    ensures r.Got? ==> r.pos <= |buf| + 1
  {
    DecodeLoop(d, t, buf, 0, |buf|, EMPTY)
  }
}
