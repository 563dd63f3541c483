/** The records that the generated encoder of a message type writes. */
module Encoding {
  import opened Bits
  import opened Varints
  import opened Reading
  import opened Wire
  import opened Schemas
  import opened Longs
  import Utf8

  /** What the writer method of a basic type puts behind the tag. */
  function ScalarPayload(s: Scalar, v: Value): Payload {
    match s
    case Int32 => VarintPayload(if v.Num? then (if v.n < 0 then v.n % TWO_64 else v.n % TWO_32) else 0)
    case Uint32 => VarintPayload(if v.Num? then v.n % TWO_32 else 0)
    case Sint32 => VarintPayload(if v.Num? then ZigZag(ToInt32(v.n % TWO_32)) else 0)
    case Fixed32Type | Sfixed32 => Wire.Four(if v.Num? then Fixed32(v.n % TWO_32) else [])
    case Int64 | Uint64 => VarintPayload(if v.Big? then v.l.Value() else 0)
    case Sint64 => VarintPayload(if v.Big? then ZigZagLong(v.l).Value() else 0)
    case Fixed64Type | Sfixed64 => Eight(if v.Big? then Fixed32(v.l.lo) + Fixed32(v.l.hi) else [])
    case Double => Eight(if v.Raw? then v.raw else [])
    case Float => Wire.Four(if v.Raw? then v.raw else [])
    case Bool => VarintPayload(if v.Flag? && v.b then 1 else 0)
    case String => Delimited(if v.Text? then Utf8.Encode(v.units) else [])
    case Bytes => Delimited(if v.Octets? then v.octets else [])
  }

  /** The bytes of a payload that is not a group. */
  function PayloadBytes(p: Payload): bytes {
    Body(Record(0, p))
  }

  function ScalarBytes(s: Scalar, v: Value): bytes {
    PayloadBytes(ScalarPayload(s, v))
  }

  /** A packed array: the values without tags. */
  function PackedBytes(s: Scalar, vs: seq<Value>): bytes {
    if vs == [] then [] else ScalarBytes(s, vs[0]) + PackedBytes(s, vs[1..])
  }

  // ---- fields in the order of their ids ----

  function Insert(f: Field, fs: seq<Field>): seq<Field> {
    if fs == [] then [f]
    else if f.id <= fs[0].id then [f] + fs
    else [fs[0]] + Insert(f, fs[1..])
  }

  /** `fieldsArray.slice().sort(compareFieldsById)`. */
  function ById(fs: seq<Field>): seq<Field> {
    if fs == [] then [] else Insert(fs[0], ById(fs[1..]))
  }

  // ---- records ----

  function Records(s: Schema, t: nat, m: Message): seq<Record>
    decreases m, 3, 0
  {
    FieldRecords(s, ById(TypeAt(s, t).fields), m)
  }

  function FieldRecords(s: Schema, fs: seq<Field>, m: Message): seq<Record>
    decreases m, 2, |fs|
  {
    if fs == [] then []
    else
      var first := if fs[0].id in m.fields then SlotRecords(s, fs[0], m.fields[fs[0].id]) else [];
      first + FieldRecords(s, fs[1..], m)
  }

  function SlotRecords(s: Schema, f: Field, slot: Slot): seq<Record>
    decreases slot, 1, 0
  {
    match slot
    case One(v) => [ValueRecord(s, f.id, f.kind, true, v)]
    case Many(vs) =>
      if f.shape.Repeated? && f.shape.packed && Packable(f.kind) then
        if vs == [] then [] else [Record(f.id, Delimited(PackedBytes(f.kind.scalar, vs)))]
      else ManyRecords(s, f, vs)
    case Dict(es) => DictRecords(s, f, es)
  }

  function ManyRecords(s: Schema, f: Field, vs: seq<Value>): seq<Record>
    decreases vs, 1, 0
  {
    if vs == [] then [] else [ValueRecord(s, f.id, f.kind, true, vs[0])] + ManyRecords(s, f, vs[1..])
  }

  function DictRecords(s: Schema, f: Field, es: seq<Entry>): seq<Record>
    decreases es, 1, 0
  {
    if es == [] then []
    else [Record(f.id, Delimited(Print(KeyRecord(es[0].key)) + Print(ValueRecord(s, 2, f.kind, false, es[0].val))))]
         + DictRecords(s, f, es[1..])
  }

  function KeyRecord(key: Utf8.Units): Record {
    Record(1, Delimited(Utf8.Encode(key)))
  }

  /** A value behind its tag; a message is a group where its type is one, except in a map. */
  function ValueRecord(s: Schema, id: nat, k: Kind, groups: bool, v: Value): Record
    decreases v, 0, 0
  {
    match k
    case Basic(sc) => Record(id, ScalarPayload(sc, v))
    case Ref(t) =>
      var rs := if v.Sub? then Records(s, t, v.m) else [];
      if groups && TypeAt(s, t).group then Record(id, Group(rs)) else Record(id, Delimited(PrintAll(rs)))
  }

  /** The finished encoding of a message. */
  function Encode(s: Schema, t: nat, m: Message): bytes {
    PrintAll(Records(s, t, m))
  }

  // ---- sorting ----

  lemma {:induction false} InsertSame(f: Field, fs: seq<Field>)
    ensures multiset(Insert(f, fs)) == multiset([f] + fs)
    ensures |Insert(f, fs)| == |fs| + 1
  {
    if fs != [] && f.id > fs[0].id {
      InsertSame(f, fs[1..]);
      assert fs == [fs[0]] + fs[1..];
      assert multiset(Insert(f, fs)) == multiset{fs[0]} + multiset([f] + fs[1..]);
    }
  }

  /** Sorting permutes the fields. */
  lemma {:induction false} ByIdSame(fs: seq<Field>)
    ensures multiset(ById(fs)) == multiset(fs) && |ById(fs)| == |fs|
    ensures forall f :: f in ById(fs) <==> f in fs
  {
    if fs != [] {
      ByIdSame(fs[1..]);
      InsertSame(fs[0], ById(fs[1..]));
      assert fs == [fs[0]] + fs[1..];
      assert multiset(ById(fs)) == multiset(fs);
    }
    forall f
      ensures f in ById(fs) <==> f in fs
    {
      assert f in ById(fs) <==> f in multiset(ById(fs));
    }
  }

  lemma {:induction false} InsertSorted(f: Field, fs: seq<Field>)
    requires forall i, j | 0 <= i < j < |fs| :: fs[i].id <= fs[j].id
    ensures forall i, j | 0 <= i < j < |Insert(f, fs)| :: Insert(f, fs)[i].id <= Insert(f, fs)[j].id
  {
    if fs != [] && f.id > fs[0].id {
      InsertSorted(f, fs[1..]);
      InsertSame(f, fs[1..]);
      var r := Insert(f, fs[1..]);
      forall g | g in r
        ensures fs[0].id <= g.id
      {
        assert g in multiset(r);
        assert g == f || g in fs[1..];
      }
    }
  }

  /** Known fields are written in the order of their ids. */
  lemma {:induction false} ByIdSorted(fs: seq<Field>)
    ensures forall i, j | 0 <= i < j < |fs| :: i < j < |ById(fs)| && ById(fs)[i].id <= ById(fs)[j].id
  {
    if fs != [] {
      ByIdSorted(fs[1..]);
      ByIdSame(fs[1..]);
      InsertSorted(fs[0], ById(fs[1..]));
      InsertSame(fs[0], ById(fs[1..]));
    }
  }

  lemma {:induction false} ByIdDistinct(fs: seq<Field>)
    requires DistinctIds(fs)
    ensures DistinctIds(ById(fs))
  {
    if fs != [] {
      ByIdDistinct(fs[1..]);
      ByIdSame(fs[1..]);
      InsertDistinct(fs[0], ById(fs[1..]));
    }
  }

  lemma {:induction false} InsertDistinct(f: Field, fs: seq<Field>)
    requires DistinctIds(fs) && forall g | g in fs :: g.id != f.id
    ensures DistinctIds(Insert(f, fs))
  {
    if fs != [] && f.id > fs[0].id {
      InsertDistinct(f, fs[1..]);
      InsertSame(f, fs[1..]);
      var r := Insert(f, fs[1..]);
      forall g | g in r
        ensures fs[0].id != g.id
      {
        assert g in multiset(r);
        assert g == f || g in fs[1..];
      }
    }
  }
}
