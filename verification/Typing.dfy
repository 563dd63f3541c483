/** What the generated decoder can return on arbitrary bytes: only messages of its schema. */
module Typing {
  import opened Wrappers
  import opened Bits
  import opened Varints
  import opened Reading
  import opened Schemas
  import opened Decoding
  import opened Longs
  import opened Encoding
  import Merging
  import RoundTrip
  import Utf8

  /** A value of a basic type, any text being a string. */
  ghost predicate ScalarTyped(sc: Scalar, v: Value) {
    match sc
    case Int32 | Sint32 | Sfixed32 => v.Num? && -0x8000_0000 <= v.n < 0x8000_0000
    case Uint32 | Fixed32Type => v.Num? && 0 <= v.n < 0x1_0000_0000
    case Int64 | Uint64 | Sint64 | Fixed64Type | Sfixed64 => v.Big?
    case Double => v.Raw? && |v.raw| == 8
    case Float => v.Raw? && |v.raw| == 4
    case Bool => v.Flag?
    case String => v.Text?
    case Bytes => v.Octets?
  }

  /** Every property belongs to a field, and every required field is there. */
  ghost predicate Typed(d: Schema, t: nat, m: Message)
    decreases m, 3
  {
    && Known(d, t, m)
    && forall f | f in TypeAt(d, t).fields && f.shape.Required? :: f.id in m.fields
  }

  ghost predicate Known(d: Schema, t: nat, m: Message)
    decreases m, 2
  {
    forall id | id in m.fields :: exists f :: f in TypeAt(d, t).fields && f.id == id && SlotTyped(d, f, m.fields[id])
  }

  /** One value, an array or a map, as the field's shape says; a map has no key twice, nor the key
      `__proto__`. */
  ghost predicate SlotTyped(d: Schema, f: Field, slot: Slot)
    decreases slot, 1
  {
    match slot
    case One(v) => (f.shape.Optional? || f.shape.Required?) && ValueTyped(d, f.kind, v)
    case Many(vs) => f.shape.Repeated? && forall v | v in vs :: ValueTyped(d, f.kind, v)
    case Dict(es) => f.shape.Map? && DistinctKeys(es) && forall e | e in es :: e.key != PROTO && ValueTyped(d, f.kind, e.val)
  }

  ghost predicate ValueTyped(d: Schema, k: Kind, v: Value)
    decreases v, 0
  {
    match k
    case Basic(sc) => ScalarTyped(sc, v)
    case Ref(t) => v.Sub? && Typed(d, t, v.m)
  }

  // ---- reading ----

  lemma ScalarIs(sc: Scalar, buf: bytes, pos: nat)
    ensures ReadScalar(sc, buf, pos).Got? ==> ScalarTyped(sc, ReadScalar(sc, buf, pos).val)
  {
    hide ReadUint32, ReadLong, ReadFixed32, ReadFixed64, ReadBytes, Decoding.ReadString, ZigZagLongDecode;
  }

  lemma {:induction false} PackedIs(sc: Scalar, buf: bytes, pos: nat, end: nat, vs: seq<Value>)
    requires forall v | v in vs :: ScalarTyped(sc, v)
    ensures var r := DecodePacked(sc, buf, pos, end, vs); r.Got? ==> forall v | v in r.val :: ScalarTyped(sc, v)
    decreases |buf| + 1 - pos
  {
    hide ReadScalar, ScalarTyped;
    if pos < end {
      ScalarIs(sc, buf, pos);
      var r := ReadScalar(sc, buf, pos);
      if r.Got? {
        PackedIs(sc, buf, r.pos, end, vs + [r.val]);
      }
    }
  }

  // ---- storing ----

  ghost predicate EntriesTyped(d: Schema, k: Kind, es: seq<Entry>) {
    DistinctKeys(es) && forall e | e in es :: e.key != PROTO && ValueTyped(d, k, e.val)
  }

  lemma {:induction false} PutMembers(es: seq<Entry>, e: Entry)
    ensures forall x | x in Put(es, e) :: (x == e && e.key != PROTO) || x in es
  {
    if e.key != PROTO && es != [] && es[0].key != e.key {
      PutMembers(es[1..], e);
    }
  }

  lemma PutIs(d: Schema, k: Kind, es: seq<Entry>, e: Entry)
    requires EntriesTyped(d, k, es) && ValueTyped(d, k, e.val)
    ensures EntriesTyped(d, k, Put(es, e))
  {
    hide ValueTyped, Put, DistinctKeys;
    PutMembers(es, e);
    Merging.KeysDistinct(es, e);
  }

  lemma StoreIs(d: Schema, t: nat, m: Message, f: Field, slot: Slot)
    requires Known(d, t, m) && f in TypeAt(d, t).fields && SlotTyped(d, f, slot)
    ensures Known(d, t, Message(m.fields[f.id := slot]))
  {
    hide SlotTyped;
  }

  /** The slot of a field that is found by its id is that field's. */
  lemma SlotOf(d: Schema, t: nat, m: Message, f: Field)
    requires WellFormed(d) && Known(d, t, m) && f in TypeAt(d, t).fields && f.id in m.fields
    ensures SlotTyped(d, f, m.fields[f.id])
  {
    hide SlotTyped;
    var g :| g in TypeAt(d, t).fields && g.id == f.id && SlotTyped(d, g, m.fields[f.id]);
  }

  // ---- the decoder ----

  lemma {:induction false} LoopIs(d: Schema, t: nat, buf: bytes, pos: nat, end: nat, m: Message)
    requires WellFormed(d) && Known(d, t, m)
    ensures var r := DecodeLoop(d, t, buf, pos, end, m); r.Got? ==> Typed(d, t, r.val)
    decreases |buf| + 1 - pos, 0
  {
    hide Known, WellFormed, ReadUint32, DecodeField;
    if pos < end {
      var r := ReadUint32(buf, pos);
      if r.Got? && !(TypeAt(d, t).group && r.val % 8 == 4) {
        FieldIs(d, t, r.val, buf, r.pos, m);
        var q := DecodeField(d, t, r.val, buf, r.pos, m);
        if q.Got? {
          LoopIs(d, t, buf, q.pos, end, q.val);
        }
      }
    }
  }

  lemma {:induction false} FieldIs(d: Schema, t: nat, tag: nat, buf: bytes, pos: nat, m: Message)
    requires WellFormed(d) && Known(d, t, m)
    ensures var r := DecodeField(d, t, tag, buf, pos, m); r.Got? ==> Known(d, t, r.val)
    decreases |buf| + 1 - pos, 2
  {
    hide Known, WellFormed, ReadUint32, DecodeEntry, DecodeValue, DecodePacked, SkipType, ScalarTyped;
    var found := Find(TypeAt(d, t).fields, tag / 8);
    if found.Some? {
      var f := found.value;
      if f.id in m.fields {
        SlotOf(d, t, m, f);
      }
      if f.shape.Map? {
        EntryIs(d, t, f, buf, pos, m);
      } else if f.shape.Repeated? && Packable(f.kind) && tag % 8 == 2 {
        var r := ReadUint32(buf, pos);
        if r.Got? {
          PackedIs(f.kind.scalar, buf, r.pos, r.pos + r.val, []);
          var q := DecodePacked(f.kind.scalar, buf, r.pos, r.pos + r.val, []);
          if q.Got? {
            StoreIs(d, t, m, f, Many(Items(m, f.id) + q.val));
          }
        }
      } else {
        ValueIs(d, f.kind, true, buf, pos);
        var r := DecodeValue(d, f.kind, true, buf, pos);
        if r.Got? {
          StoreIs(d, t, m, f, if f.shape.Repeated? then Many(Items(m, f.id) + [r.val]) else One(r.val));
        }
      }
    }
  }

  lemma {:induction false} EntryIs(d: Schema, t: nat, f: Field, buf: bytes, pos: nat, m: Message)
    requires WellFormed(d) && Known(d, t, m) && f in TypeAt(d, t).fields && f.shape.Map?
    ensures var r := DecodeEntry(d, f, buf, pos, m); r.Got? ==> Known(d, t, r.val)
    decreases |buf| + 1 - pos, 1
  {
    hide Known, WellFormed, SkipVarint, Decoding.ReadString, DecodeValue, Put;
    var r := SkipVarint(buf, pos);
    if r.Got? {
      var key := Decoding.ReadString(buf, r.pos + 1);
      if key.Got? {
        ValueIs(d, f.kind, false, buf, key.pos + 1);
        var v := DecodeValue(d, f.kind, false, buf, key.pos + 1);
        if v.Got? {
          if f.id in m.fields {
            SlotOf(d, t, m, f);
          }
          PutIs(d, f.kind, Entries(m, f.id), Entry(key.val, v.val));
          StoreIs(d, t, m, f, Dict(Put(Entries(m, f.id), Entry(key.val, v.val))));
        }
      }
    }
  }

  lemma {:induction false} ValueIs(d: Schema, k: Kind, groups: bool, buf: bytes, pos: nat)
    requires WellFormed(d)
    ensures var r := DecodeValue(d, k, groups, buf, pos); r.Got? ==> ValueTyped(d, k, r.val)
    decreases |buf| + 1 - pos, 1
  {
    hide WellFormed, ReadUint32, ReadScalar, ScalarTyped, Typed, DecodeLoop;
    match k
    case Basic(sc) => ScalarIs(sc, buf, pos);
    case Ref(u) =>
      NothingKnown(d, u);
      if groups && TypeAt(d, u).group {
        LoopIs(d, u, buf, pos, |buf|, EMPTY);
      } else {
        var r := ReadUint32(buf, pos);
        if r.Got? {
          LoopIs(d, u, buf, r.pos, r.pos + r.val, EMPTY);
        }
      }
  }

  lemma NothingKnown(d: Schema, t: nat)
    ensures Known(d, t, EMPTY)
  {
  }

  /** On any bytes at all, the decoder throws or returns a message of its schema, with all required
      fields, at every depth. */
  lemma DecodeTyped(d: Schema, t: nat, buf: bytes)
    requires WellFormed(d)
    ensures Decode(d, t, buf).Got? ==> Typed(d, t, Decode(d, t, buf).val)
  {
    NothingKnown(d, t);
    LoopIs(d, t, buf, 0, |buf|, EMPTY);
  }

  // ---- encoding what was decoded ----

  /** Every string in the message survives `utf8.write` and `utf8.read`. */
  ghost predicate Readable(m: Message)
    decreases m, 2
  {
    forall id | id in m.fields :: SlotReadable(m.fields[id])
  }

  ghost predicate SlotReadable(slot: Slot)
    decreases slot, 1
  {
    match slot
    case One(v) => ValueReadable(v)
    case Many(vs) => forall v | v in vs :: ValueReadable(v)
    case Dict(es) => forall e | e in es :: Utf8.Faithful(e.key) && ValueReadable(e.val)
  }

  ghost predicate ValueReadable(v: Value)
    decreases v, 0
  {
    (v.Text? ==> Utf8.Faithful(v.units)) && (v.Sub? ==> Readable(v.m))
  }

  /** Fields refer to types that the schema has. */
  ghost predicate Closed(d: Schema) {
    forall t, f | 0 <= t < |d| && f in d[t].fields && f.kind.Ref? :: f.kind.index < |d|
  }

  lemma {:induction false} TypedValid(d: Schema, t: nat, m: Message)
    requires WellFormed(d) && Closed(d) && t < |d| && Typed(d, t, m) && Readable(m)
    ensures Valid(d, t, m)
    decreases m, 2
  {
    hide SlotTyped, SlotOk, SlotReadable, WellFormed;
    forall f | f in d[t].fields && f.id in m.fields
      ensures SlotOk(d, f, m.fields[f.id])
    {
      SlotOf(d, t, m, f);
      TypedSlot(d, f, m.fields[f.id]);
    }
  }

  lemma {:induction false} TypedSlot(d: Schema, f: Field, slot: Slot)
    requires WellFormed(d) && Closed(d) && (f.kind.Ref? ==> f.kind.index < |d|)
    requires SlotTyped(d, f, slot) && SlotReadable(slot)
    ensures SlotOk(d, f, slot)
    decreases slot, 1
  {
    hide ValueTyped, ValueOk, ValueReadable, WellFormed, Closed, Utf8.Faithful;
    match slot
    case One(v) => TypedValue(d, f.kind, v);
    case Many(vs) =>
      forall v | v in vs
        ensures ValueOk(d, f.kind, v)
      {
        TypedValue(d, f.kind, v);
      }
    case Dict(es) =>
      forall e | e in es
        ensures ValueOk(d, f.kind, e.val)
      {
        TypedValue(d, f.kind, e.val);
      }
  }

  lemma {:induction false} TypedValue(d: Schema, k: Kind, v: Value)
    requires WellFormed(d) && Closed(d) && (k.Ref? ==> k.index < |d|)
    requires ValueTyped(d, k, v) && ValueReadable(v)
    ensures ValueOk(d, k, v)
    decreases v, 0
  {
    hide Typed, Valid, WellFormed, Closed, Utf8.Faithful;
    match k
    case Basic(sc) =>
    case Ref(t) => TypedValid(d, t, v.m);
  }

  /** Whatever bytes a message was decoded from, it can be encoded, and decoding that gives the message
      back up to empty arrays and maps. */
  lemma Reencoded(d: Schema, t: nat, buf: bytes)
    requires WellFormed(d) && Closed(d) && t < |d| && Decode(d, t, buf).Got?
    requires var m := Decode(d, t, buf).val; Readable(m) && |Encode(d, t, m)| < TWO_32
    ensures var m := Decode(d, t, buf).val;
      Valid(d, t, m) && Decode(d, t, Encode(d, t, m)) == Got(Kept(d, t, m), |Encode(d, t, m)|)
  {
    hide Decode, Encode, Kept, Typed, Valid, WellFormed, Readable;
    DecodeTyped(d, t, buf);
    TypedValid(d, t, Decode(d, t, buf).val);
    RoundTrip.DecodeInverts(d, t, Decode(d, t, buf).val);
  }
}
