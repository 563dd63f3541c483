/** The record structure of the wire format (sections "Length-Delimited Records" and "Groups"
    of the Protocol Buffers Encoding specification), free of any schema: a message is a
    sequence of tagged records, and a group nests another such sequence. */
module Wire {
  import opened Bits
  import opened Varints
  import opened Reading

  datatype Payload =
    | VarintPayload(n: nat)
    | Eight(b: bytes)
    | Delimited(b: bytes)
    | Group(records: seq<Record>)
    | Four(b: bytes)

  datatype Record = Record(id: nat, payload: Payload)

  /** Field ids are below 2^29, so that a tag is a word. */
  const MAX_ID: nat := 0x2000_0000

  function WireType(p: Payload): (t: nat)
    ensures t < 8 && t != 4
  {
    match p
    case VarintPayload(_) => 0
    case Eight(_) => 1
    case Delimited(_) => 2
    case Group(_) => 3
    case Four(_) => 5
  }

  function Tag(id: nat, wireType: nat): (b: bytes)
    ensures |b| >= 1
  {
    Varint(id * 8 + wireType)
  }

  function Body(r: Record): bytes
    decreases r, 0
  {
    match r.payload
    case VarintPayload(n) => Varint(n)
    case Eight(b) => b
    case Delimited(b) => Delimit(b)
    case Group(records) => PrintAll(records) + Tag(r.id, 4)
    case Four(b) => b
  }

  function Print(r: Record): bytes
    decreases r, 1
  {
    Tag(r.id, WireType(r.payload)) + Body(r)
  }

  function PrintAll(rs: seq<Record>): bytes
    decreases rs, 0
  {
    if rs == [] then [] else Print(rs[0]) + PrintAll(rs[1..])
  }

  /** What every record of an encoder satisfies; a delimited payload must fit its prefix. */
  ghost predicate Sound(r: Record)
    decreases r
  {
    && r.id < MAX_ID
    && match r.payload
       case VarintPayload(n) => n < TWO_64
       case Eight(b) => |b| == 8
       case Delimited(b) => |b| < TWO_32
       case Group(records) => forall q | q in records :: Sound(q)
       case Four(b) => |b| == 4
  }

  lemma {:induction false} PrintAllConcat(a: seq<Record>, b: seq<Record>)
    ensures PrintAll(a + b) == PrintAll(a) + PrintAll(b)
  {
    if a == [] {
      assert a + b == b;
    } else {
      assert (a + b)[1..] == a[1..] + b;
      PrintAllConcat(a[1..], b);
    }
  }

  lemma TagAt(buf: bytes, pos: nat, id: nat, wireType: nat)
    requires At(buf, pos, Tag(id, wireType)) && id < MAX_ID && wireType < 8
    ensures ReadUint32(buf, pos) == Got(id * 8 + wireType, pos + |Tag(id, wireType)|)
    ensures (id * 8 + wireType) % 8 == wireType && (id * 8 + wireType) / 8 == id
  {
    Uint32At(buf, pos, id * 8 + wireType);
  }

  lemma SkipEnd(buf: bytes, pos: nat, id: nat)
    requires At(buf, pos, Tag(id, 4)) && id < MAX_ID
    ensures SkipGroup(buf, pos) == Got((), pos + |Tag(id, 4)|)
  {
    hide At, ReadUint32, Tag;
    TagAt(buf, pos, id, 4);
  }

  /** `skipType` advances past exactly the body of a record, whatever its wire type, nested
      groups included. */
  lemma {:induction false} SkipRecord(buf: bytes, pos: nat, r: Record)
    requires At(buf, pos, Body(r)) && Sound(r)
    ensures SkipType(buf, pos, WireType(r.payload)) == Got((), pos + |Body(r)|)
    decreases r, 0
  {
    hide At, ReadUint32, SkipGroup, Tag, PrintAll;
    match r.payload
    case VarintPayload(n) => SkipVarintAt(buf, pos, n);
    case Eight(b) => AtBound(buf, pos, b);
    case Delimited(b) => DelimitedAt(buf, pos, b);
    case Group(records) =>
      AtConcat(buf, pos, PrintAll(records), Tag(r.id, 4));
      SkipRecords(buf, pos, records);
      SkipEnd(buf, pos + |PrintAll(records)|, r.id);
    case Four(b) => AtBound(buf, pos, b);
  }

  /** The group loop runs over whole records. */
  lemma {:induction false} SkipRecords(buf: bytes, pos: nat, rs: seq<Record>)
    requires At(buf, pos, PrintAll(rs)) && forall r | r in rs :: Sound(r)
    ensures SkipGroup(buf, pos) == SkipGroup(buf, pos + |PrintAll(rs)|)
    decreases rs, 1
  {
    hide At, SkipGroup, Print;
    if rs != [] {
      var r := rs[0];
      AtConcat(buf, pos, Print(r), PrintAll(rs[1..]));
      SkipOne(buf, pos, r);
      SkipRecords(buf, pos + |Print(r)|, rs[1..]);
    }
  }

  lemma {:induction false} SkipOne(buf: bytes, pos: nat, r: Record)
    requires At(buf, pos, Print(r)) && Sound(r)
    ensures SkipGroup(buf, pos) == SkipGroup(buf, pos + |Print(r)|)
    decreases r, 1
  {
    hide At, ReadUint32, SkipType, Tag, Body;
    var tag := Tag(r.id, WireType(r.payload));
    assert r.id < MAX_ID;
    AtConcat(buf, pos, tag, Body(r));
    TagAt(buf, pos, r.id, WireType(r.payload));
    SkipRecord(buf, pos + |tag|, r);
  }
}
