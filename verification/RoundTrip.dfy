/** Decoding what was encoded: the round trip, forward compatibility and merging, all three as
    consequences of one theorem about the decoding loop. */
module RoundTrip {
  import opened Wrappers
  import opened Bits
  import opened Varints
  import opened Reading
  import opened Wire
  import opened Schemas
  import opened Encoding
  import opened Decoding
  import opened Longs
  import Utf8

  // ---- basic types ----

  lemma Int32At(n: int, buf: bytes, pos: nat)
    requires -TWO_31 <= n < TWO_31
    requires At(buf, pos, Varint(if n < 0 then n % TWO_64 else n % TWO_32))
    ensures ReadInt32(buf, pos) == Got(n, pos + |Varint(if n < 0 then n % TWO_64 else n % TWO_32)|)
  {
    hide At, Varint;
    if n < 0 {
      DivUnique(n, TWO_64, -1, TWO_64 + n);
      VarintSizes(TWO_64 + n);
      NegativeInt32(buf, pos, n);
    } else {
      SmallMod(n, TWO_32);
      Uint32At(buf, pos, n);
    }
  }

  lemma Sint32At(n: int, buf: bytes, pos: nat)
    requires -TWO_31 <= n < TWO_31
    requires At(buf, pos, Varint(ZigZag(ToInt32(n % TWO_32))))
    ensures ReadSint32(buf, pos) == Got(n, pos + |Varint(ZigZag(ToInt32(n % TWO_32)))|)
  {
    hide At, Varint;
    Int32Bits(n);
    ZigZagInverse(n);
    Uint32At(buf, pos, ZigZag(n));
  }

  lemma Sfixed32At(n: int, buf: bytes, pos: nat)
    requires -TWO_31 <= n < TWO_31 && At(buf, pos, Fixed32(n % TWO_32))
    ensures ReadFixed32(buf, pos).Got? && ToInt32(ReadFixed32(buf, pos).val) == n
    ensures ReadFixed32(buf, pos).pos == pos + 4
  {
    hide At;
    Int32Bits(n);
    Fixed32At(buf, pos, n % TWO_32);
  }

  lemma StringAt(u: Utf8.Units, buf: bytes, pos: nat)
    requires At(buf, pos, Delimit(Utf8.Encode(u))) && |Utf8.Encode(u)| < TWO_32 && Utf8.Faithful(u)
    ensures Decoding.ReadString(buf, pos) == Got(u, pos + |Delimit(Utf8.Encode(u))|)
  {
    hide At, Utf8.Faithful, Utf8.Encode, Utf8.Read;
    var b := Utf8.Encode(u);
    DelimitedAt(buf, pos, b);
    WholeAt(b);
    Utf8.ReadInverse(u, b, 0);
  }

  lemma WholeAt(b: bytes)
    ensures At(b, 0, b)
  {
  }

  lemma BoolAt(b: bool, buf: bytes, pos: nat)
    requires At(buf, pos, Varint(if b then 1 else 0))
    ensures ReadBool(buf, pos) == Got(b, pos + |Varint(if b then 1 else 0)|)
  {
    hide At, Varint;
    Uint32At(buf, pos, if b then 1 else 0);
  }

  /** The reader method of a basic type undoes the writer method, in place. */
  lemma ScalarAt(s: Scalar, v: Value, buf: bytes, pos: nat)
    requires ScalarOk(s, v) && At(buf, pos, ScalarBytes(s, v)) && |ScalarBytes(s, v)| < TWO_32
    ensures ReadScalar(s, buf, pos) == Got(v, pos + |ScalarBytes(s, v)|)
    ensures |ScalarBytes(s, v)| >= 1
  {
    hide At, Varint, ReadUint32, ReadLong, Delimit, Utf8.Faithful, Fixed32, ReadFixed32, ReadBytes, ZigZagLong, ZigZagLongDecode;
    hide ZigZag, ReadInt32, ReadSint32, ReadBool, ReadFixed64, Decoding.ReadString, Utf8.Encode;
    match s
    case Int32 => Int32At(v.n, buf, pos);
    case Uint32 =>
      SmallMod(v.n, TWO_32);
      Uint32At(buf, pos, v.n);
    case Sint32 => Sint32At(v.n, buf, pos);
    case Fixed32Type =>
      SmallMod(v.n, TWO_32);
      Fixed32At(buf, pos, v.n);
    case Sfixed32 => Sfixed32At(v.n, buf, pos);
    case Int64 => LongAt(buf, pos, v.l);
    case Uint64 => LongAt(buf, pos, v.l);
    case Sint64 =>
      LongAt(buf, pos, ZigZagLong(v.l));
      ZigZagLongInverse(v.l);
    case Fixed64Type => Fixed64At(buf, pos, v.l);
    case Sfixed64 => Fixed64At(buf, pos, v.l);
    case Double => AtBound(buf, pos, v.raw);
    case Float => AtBound(buf, pos, v.raw);
    case Bool => BoolAt(v.b, buf, pos);
    case String =>
      DelimitSize(Utf8.Encode(v.units));
      StringAt(v.units, buf, pos);
    case Bytes =>
      DelimitSize(v.octets);
      DelimitedAt(buf, pos, v.octets);
  }

  lemma DelimitSize(b: bytes)
    ensures |Delimit(b)| > |b|
  {
  }

  lemma ScalarSound(s: Scalar, v: Value, id: nat)
    requires ScalarOk(s, v) && |ScalarBytes(s, v)| < TWO_32 && id < MAX_ID
    ensures Sound(Record(id, ScalarPayload(s, v))) && WireType(ScalarPayload(s, v)) == BasicWire(s)
    ensures Body(Record(id, ScalarPayload(s, v))) == ScalarBytes(s, v)
  {
    hide Varint, Delimit, Utf8.Faithful, Fixed32;
    match s
    case Int32 => SmallMod(if v.n < 0 then 0 else v.n, TWO_32);
    case Sint32 =>
      Int32Bits(v.n);
      ZigZagInverse(v.n);
    case String => DelimitSize(Utf8.Encode(v.units));
    case Bytes => DelimitSize(v.octets);
    case _ =>
  }

  lemma {:induction false} PackedAt(s: Scalar, vs: seq<Value>, buf: bytes, pos: nat, end: nat, done: seq<Value>)
    requires forall v | v in vs :: ScalarOk(s, v)
    requires At(buf, pos, PackedBytes(s, vs)) && |PackedBytes(s, vs)| < TWO_32
    requires end == pos + |PackedBytes(s, vs)|
    ensures DecodePacked(s, buf, pos, end, done) == Got(done + vs, end)
    decreases |vs|
  {
    hide At, ReadScalar, ScalarBytes, ScalarOk;
    if vs == [] {
      assert done + vs == done;
    } else {
      var b := ScalarBytes(s, vs[0]);
      AtConcat(buf, pos, b, PackedBytes(s, vs[1..]));
      ScalarAt(s, vs[0], buf, pos);
      PackedAt(s, vs[1..], buf, pos + |b|, end, done + [vs[0]]);
      assert done + [vs[0]] + vs[1..] == done + vs;
    }
  }

  // ---- every record an encoder writes is sound ----

  lemma FirstRecord(r: Record, rs: seq<Record>)
    ensures PrintAll([r] + rs) == Print(r) + PrintAll(rs)
    ensures |PrintAll([r] + rs)| == |Print(r)| + |PrintAll(rs)| && |Body(r)| < |Print(r)|
  {
    assert ([r] + rs)[1..] == rs;
  }

  lemma {:induction false} SoundMessage(s: Schema, t: nat, m: Message)
    requires WellFormed(s) && Valid(s, t, m) && |Encode(s, t, m)| < TWO_32
    ensures forall r | r in Records(s, t, m) :: Sound(r)
    decreases m, 3, 0
  {
    ByIdSame(s[t].fields);
    SoundFields(s, ById(s[t].fields), m);
  }

  lemma {:induction false} SoundFields(s: Schema, fs: seq<Field>, m: Message)
    requires WellFormed(s)
    requires forall f | f in fs :: f.id < MAX_ID && (f.id in m.fields ==> SlotOk(s, f, m.fields[f.id]))
    requires |PrintAll(FieldRecords(s, fs, m))| < TWO_32
    ensures forall r | r in FieldRecords(s, fs, m) :: Sound(r)
    decreases m, 2, |fs|
  {
    hide SlotRecords, SlotOk, Sound, PrintAll;
    if fs != [] {
      var f := fs[0];
      var first := if f.id in m.fields then SlotRecords(s, f, m.fields[f.id]) else [];
      PrintAllConcat(first, FieldRecords(s, fs[1..], m));
      SoundFields(s, fs[1..], m);
      if f.id in m.fields {
        SoundSlot(s, f, m.fields[f.id]);
      }
    }
  }

  lemma {:induction false} SoundSlot(s: Schema, f: Field, slot: Slot)
    requires WellFormed(s) && f.id < MAX_ID && SlotOk(s, f, slot) && |PrintAll(SlotRecords(s, f, slot))| < TWO_32
    ensures forall r | r in SlotRecords(s, f, slot) :: Sound(r)
    decreases slot, 1, 0
  {
    hide ValueRecord, ManyRecords, DictRecords, Print, Body, PackedBytes;
    match slot
    case One(v) =>
      FirstRecord(ValueRecord(s, f.id, f.kind, true, v), []);
      SoundValue(s, f.id, f.kind, true, v);
    case Many(vs) =>
      if f.shape.packed && Packable(f.kind) {
        if vs != [] {
          var r := Record(f.id, Delimited(PackedBytes(f.kind.scalar, vs)));
          FirstRecord(r, []);
          SoundDelimited(r);
        }
      } else {
        SoundMany(s, f, vs);
      }
    case Dict(es) => SoundDict(s, f, es);
  }

  lemma SoundDelimited(r: Record)
    requires r.id < MAX_ID && r.payload.Delimited? && |Body(r)| < TWO_32
    ensures Sound(r) && |r.payload.b| < |Body(r)|
  {
    DelimitSize(r.payload.b);
  }

  lemma {:induction false} SoundMany(s: Schema, f: Field, vs: seq<Value>)
    requires WellFormed(s) && f.id < MAX_ID && (forall v | v in vs :: ValueOk(s, f.kind, v))
    requires |PrintAll(ManyRecords(s, f, vs))| < TWO_32
    ensures forall r | r in ManyRecords(s, f, vs) :: Sound(r)
    decreases vs, 1, 0
  {
    hide ValueRecord, ValueOk, Sound, Print, Body;
    if vs != [] {
      FirstRecord(ValueRecord(s, f.id, f.kind, true, vs[0]), ManyRecords(s, f, vs[1..]));
      SoundValue(s, f.id, f.kind, true, vs[0]);
      SoundMany(s, f, vs[1..]);
    }
  }

  lemma {:induction false} SoundDict(s: Schema, f: Field, es: seq<Entry>)
    requires WellFormed(s) && f.id < MAX_ID
    requires |PrintAll(DictRecords(s, f, es))| < TWO_32
    ensures forall r | r in DictRecords(s, f, es) :: Sound(r)
    decreases es, 1, 0
  {
    hide ValueRecord, Sound, Print, Body;
    if es != [] {
      var r := DictRecords(s, f, es)[0];
      FirstRecord(r, DictRecords(s, f, es[1..]));
      SoundDelimited(r);
      SoundDict(s, f, es[1..]);
    }
  }

  lemma {:induction false} SoundValue(s: Schema, id: nat, k: Kind, groups: bool, v: Value)
    requires WellFormed(s) && id < MAX_ID && ValueOk(s, k, v) && |Body(ValueRecord(s, id, k, groups, v))| < TWO_32
    ensures Sound(ValueRecord(s, id, k, groups, v))
    decreases v, 0, 0
  {
    hide Records, PrintAll, ScalarPayload, ScalarOk;
    match k
    case Basic(sc) =>
      ScalarBody(sc, v, id);
      ScalarSound(sc, v, id);
    case Ref(t) =>
      var r := ValueRecord(s, id, k, groups, v);
      if groups && TypeAt(s, t).group {
        SoundMessage(s, t, v.m);
      } else {
        SoundDelimited(r);
      }
  }

  lemma ScalarBody(sc: Scalar, v: Value, id: nat)
    requires ScalarOk(sc, v)
    ensures Body(Record(id, ScalarPayload(sc, v))) == ScalarBytes(sc, v)
  {
    hide Varint, Delimit, Utf8.Faithful, Fixed32;
  }

  // ---- the decoding loop over the records of an encoder ----

  /** What the loop does with the slot of a field. */
  function AddSlot(d: Schema, t: nat, id: nat, slot: Slot, acc: Message): Message {
    var f := Find(TypeAt(d, t).fields, id);
    if f.None? || Vacant(slot) then acc
    else Message(acc.fields[id := Joined(acc, id, KeptSlot(d, f.value.kind, slot))])
  }

  function AddFields(d: Schema, t: nat, fs: seq<Field>, m: Message, acc: Message): Message {
    if fs == [] then acc
    else AddFields(d, t, fs[1..], m, if fs[0].id in m.fields then AddSlot(d, t, fs[0].id, m.fields[fs[0].id], acc) else acc)
  }

  /** How the loop goes on after the field that starts at `pos`. */
  function After(d: Schema, t: nat, buf: bytes, r: Read<Message>, end: nat): Read<Message> {
    match r
    case Throw(e) => Throw(e)
    case Got(m, p) => DecodeLoop(d, t, buf, p, end, m)
  }

  lemma RecordAt(d: Schema, t: nat, r: Record, buf: bytes, pos: nat, end: nat, acc: Message)
    requires At(buf, pos, Print(r)) && r.id < MAX_ID && pos + |Print(r)| <= end
    ensures var w := WireType(r.payload); var p := pos + |Tag(r.id, w)|;
      && At(buf, p, Body(r)) && p + |Body(r)| == pos + |Print(r)|
      && (r.id * 8 + w) / 8 == r.id && (r.id * 8 + w) % 8 == w
      && DecodeLoop(d, t, buf, pos, end, acc) == After(d, t, buf, DecodeField(d, t, r.id * 8 + w, buf, p, acc), end)
  {
    hide At, Body, ReadUint32, DecodeField, Tag;
    var w := WireType(r.payload);
    AtConcat(buf, pos, Tag(r.id, w), Body(r));
    TagAt(buf, pos, r.id, w);
  }

  lemma UnknownAt(d: Schema, t: nat, r: Record, buf: bytes, pos: nat, end: nat, acc: Message)
    requires At(buf, pos, Print(r)) && Sound(r) && pos + |Print(r)| <= end
    requires Find(TypeAt(d, t).fields, r.id).None?
    ensures DecodeLoop(d, t, buf, pos, end, acc) == DecodeLoop(d, t, buf, pos + |Print(r)|, end, acc)
  {
    hide At, Body, SkipType, Print, DecodeLoop;
    RecordAt(d, t, r, buf, pos, end, acc);
    SkipRecord(buf, pos + |Tag(r.id, WireType(r.payload))|, r);
  }

  lemma {:induction false} UnknownsAt(d: Schema, t: nat, rs: seq<Record>, id: nat, buf: bytes, pos: nat, end: nat, acc: Message)
    requires At(buf, pos, PrintAll(rs)) && pos + |PrintAll(rs)| <= end
    requires forall r | r in rs :: Sound(r) && r.id == id
    requires Find(TypeAt(d, t).fields, id).None?
    ensures DecodeLoop(d, t, buf, pos, end, acc) == DecodeLoop(d, t, buf, pos + |PrintAll(rs)|, end, acc)
    decreases |rs|
  {
    hide At, Print, DecodeLoop, Sound;
    if rs != [] {
      AtConcat(buf, pos, Print(rs[0]), PrintAll(rs[1..]));
      assert rs[0] in rs;
      UnknownAt(d, t, rs[0], buf, pos, end, acc);
      UnknownsAt(d, t, rs[1..], id, buf, pos + |Print(rs[0])|, end, acc);
    }
  }

  /** A field of the encoder's schema meets at most one field of the decoder's, of its kind. */
  lemma FindShared(d: Schema, s: Schema, t: nat, f: Field)
    requires Compatible(d, s) && t < |s| && f in s[t].fields
    ensures var g := Find(TypeAt(d, t).fields, f.id);
      g.Some? ==> g.value.id == f.id && g.value.kind == f.kind && Fits(g.value.shape, f.shape)
  {
    var g := Find(TypeAt(d, t).fields, f.id);
    if g.Some? {
      assert Shared(g.value, s[t].fields);
      var h :| h in s[t].fields && h.id == g.value.id && h.kind == g.value.kind && Fits(g.value.shape, h.shape);
      assert h == f;
    }
  }

  lemma {:induction false} MessageAt(d: Schema, s: Schema, t: nat, m: Message, buf: bytes, pos: nat, end: nat, acc: Message)
    requires Compatible(d, s) && Valid(s, t, m)
    requires At(buf, pos, Encode(s, t, m)) && |Encode(s, t, m)| < TWO_32 && pos + |Encode(s, t, m)| <= end
    ensures DecodeLoop(d, t, buf, pos, end, acc)
         == DecodeLoop(d, t, buf, pos + |Encode(s, t, m)|, end, AddFields(d, t, ById(s[t].fields), m, acc))
    decreases m, 3, 0
  {
    hide At, DecodeLoop, FieldRecords, AddFields, ById, SlotOk, PrintAll, Compatible;
    ByIdSame(s[t].fields);
    FieldsAt(d, s, t, ById(s[t].fields), m, buf, pos, end, acc);
  }

  lemma {:induction false} FieldsAt(d: Schema, s: Schema, t: nat, fs: seq<Field>, m: Message, buf: bytes, pos: nat, end: nat, acc: Message)
    requires Compatible(d, s) && t < |s|
    requires forall f | f in fs :: f in s[t].fields && (f.id in m.fields ==> SlotOk(s, f, m.fields[f.id]))
    requires var b := PrintAll(FieldRecords(s, fs, m)); At(buf, pos, b) && |b| < TWO_32 && pos + |b| <= end
    ensures DecodeLoop(d, t, buf, pos, end, acc)
         == DecodeLoop(d, t, buf, pos + |PrintAll(FieldRecords(s, fs, m))|, end, AddFields(d, t, fs, m, acc))
    decreases m, 2, |fs|
  {
    hide At, DecodeLoop, SlotRecords, SlotOk, PrintAll, AddSlot, Compatible;
    PrintNone();
    if fs != [] {
      var f := fs[0];
      var rest := FieldRecords(s, fs[1..], m);
      if f.id in m.fields {
        var slot := m.fields[f.id];
        var first := SlotRecords(s, f, slot);
        PrintAllConcat(first, rest);
        AtConcat(buf, pos, PrintAll(first), PrintAll(rest));
        SlotAt(d, s, t, f, slot, buf, pos, end, acc);
        FieldsAt(d, s, t, fs[1..], m, buf, pos + |PrintAll(first)|, end, AddSlot(d, t, f.id, slot, acc));
      } else {
        assert [] + rest == rest;
        FieldsAt(d, s, t, fs[1..], m, buf, pos, end, acc);
      }
    }
  }

  lemma PrintNone()
    ensures PrintAll([]) == []
  {
  }

  lemma {:induction false} SlotAt(d: Schema, s: Schema, t: nat, f: Field, slot: Slot, buf: bytes, pos: nat, end: nat, acc: Message)
    requires Compatible(d, s) && t < |s| && f in s[t].fields && SlotOk(s, f, slot)
    requires var b := PrintAll(SlotRecords(s, f, slot)); At(buf, pos, b) && |b| < TWO_32 && pos + |b| <= end
    ensures DecodeLoop(d, t, buf, pos, end, acc)
         == DecodeLoop(d, t, buf, pos + |PrintAll(SlotRecords(s, f, slot))|, end, AddSlot(d, t, f.id, slot, acc))
    decreases slot, 1, 0
  {
    hide At, DecodeLoop, PrintAll, Fits, ValueOk, Find, Compatible, SlotRecords, KeptSlot, SlotOk;
    if Find(TypeAt(d, t).fields, f.id).None? {
      SchemaOf(d, s, t, f);
      SoundSlot(s, f, slot);
      SameIds(s, f, slot);
      UnknownsAt(d, t, SlotRecords(s, f, slot), f.id, buf, pos, end, acc);
    } else {
      KnownSlotAt(d, s, t, f, slot, buf, pos, end, acc);
    }
  }

  lemma {:induction false} KnownSlotAt(d: Schema, s: Schema, t: nat, f: Field, slot: Slot, buf: bytes, pos: nat, end: nat, acc: Message)
    requires Compatible(d, s) && t < |s| && f in s[t].fields && SlotOk(s, f, slot) && Find(TypeAt(d, t).fields, f.id).Some?
    requires var b := PrintAll(SlotRecords(s, f, slot)); At(buf, pos, b) && |b| < TWO_32 && pos + |b| <= end
    ensures DecodeLoop(d, t, buf, pos, end, acc)
         == DecodeLoop(d, t, buf, pos + |PrintAll(SlotRecords(s, f, slot))|, end, AddSlot(d, t, f.id, slot, acc))
    decreases slot, 0
  {
    hide At, DecodeLoop, PrintAll, Fits, ValueOk, Find, Compatible, KeptAll, KeptEntries, PutAll, Utf8.Faithful;
    PrintNone();
    FindShared(d, s, t, f);
    SchemaOf(d, s, t, f);
    match slot
    case One(v) => OneAt(d, s, t, f, v, buf, pos, end, acc);
    case Many(vs) =>
      if vs != [] {
        if f.shape.packed && Packable(f.kind) {
          PackedSlotAt(d, s, t, f, vs, buf, pos, end, acc);
        } else {
          ManyAt(d, s, t, f, vs, buf, pos, end, acc);
          KeptSome(d, f.kind, vs);
        }
      }
    case Dict(es) =>
      if es != [] {
        DictAt(d, s, t, f, es, buf, pos, end, acc);
        PutRevived(d, f.kind, Entries(acc, f.id), es);
      }
  }

  lemma SchemaOf(d: Schema, s: Schema, t: nat, f: Field)
    requires Compatible(d, s) && t < |s| && f in s[t].fields
    ensures WellFormed(s) && f.id < MAX_ID
  {
  }

  lemma {:induction false} SameIds(s: Schema, f: Field, slot: Slot)
    ensures forall r | r in SlotRecords(s, f, slot) :: r.id == f.id
  {
    match slot
    case One(v) =>
    case Many(vs) => SameManyIds(s, f, vs);
    case Dict(es) => SameDictIds(s, f, es);
  }

  lemma {:induction false} SameManyIds(s: Schema, f: Field, vs: seq<Value>)
    ensures forall r | r in ManyRecords(s, f, vs) :: r.id == f.id
  {
    if vs != [] {
      SameManyIds(s, f, vs[1..]);
    }
  }

  lemma {:induction false} SameDictIds(s: Schema, f: Field, es: seq<Entry>)
    ensures forall r | r in DictRecords(s, f, es) :: r.id == f.id
  {
    if es != [] {
      SameDictIds(s, f, es[1..]);
    }
  }

  lemma {:induction false} OneAt(d: Schema, s: Schema, t: nat, f: Field, v: Value, buf: bytes, pos: nat, end: nat, acc: Message)
    requires Compatible(d, s) && t < |s| && f in s[t].fields && SlotOk(s, f, One(v))
    requires Find(TypeAt(d, t).fields, f.id).Some?
    requires var b := PrintAll([ValueRecord(s, f.id, f.kind, true, v)]); At(buf, pos, b) && |b| < TWO_32 && pos + |b| <= end
    ensures DecodeLoop(d, t, buf, pos, end, acc)
         == DecodeLoop(d, t, buf, pos + |PrintAll([ValueRecord(s, f.id, f.kind, true, v)])|, end, WithOne(acc, f.id, KeptValue(d, f.kind, v)))
    decreases v, 1, 0
  {
    hide At, DecodeLoop, DecodeValue, Print, Body, ValueRecord, PrintAll, ValueOk, KeptValue, Compatible;
    var r := ValueRecord(s, f.id, f.kind, true, v);
    SinglePrint(r);
    FindShared(d, s, t, f);
    IdOf(d, s, t, f, f.kind, true, v);
    RecordAt(d, t, r, buf, pos, end, acc);
    ValueAt(d, s, f.id, f.kind, true, v, buf, pos + |Tag(r.id, WireType(r.payload))|);
  }

  lemma SinglePrint(r: Record)
    ensures PrintAll([r]) == Print(r) && |Body(r)| < |Print(r)|
  {
    FirstRecord(r, []);
    assert [r] + [] == [r];
  }

  lemma IdOf(d: Schema, s: Schema, t: nat, f: Field, k: Kind, groups: bool, v: Value)
    requires Compatible(d, s) && t < |s| && f in s[t].fields
    ensures f.id < MAX_ID && ValueRecord(s, f.id, k, groups, v).id == f.id
  {
  }

  /** A value in place behind its tag, as field, array element or map value. */
  lemma {:induction false} ValueAt(d: Schema, s: Schema, id: nat, k: Kind, groups: bool, v: Value, buf: bytes, pos: nat)
    requires Compatible(d, s) && ValueOk(s, k, v) && id < MAX_ID
    requires var b := Body(ValueRecord(s, id, k, groups, v)); At(buf, pos, b) && |b| < TWO_32
    ensures DecodeValue(d, k, groups, buf, pos) == Got(KeptValue(d, k, v), pos + |Body(ValueRecord(s, id, k, groups, v))|)
    decreases v, 0, 0
  {
    hide At, DecodeLoop, ScalarPayload, ReadScalar, ScalarOk, Print, PrintAll, Kept, Records, ReadUint32, SkipType;
    match k
    case Basic(sc) =>
      ScalarBody(sc, v, id);
      ScalarAt(sc, v, buf, pos);
    case Ref(u) =>
      var b := Encode(s, u, v.m);
      if groups && TypeAt(s, u).group {
        AtConcat(buf, pos, b, Tag(id, 4));
        AtBound(buf, pos + |b|, Tag(id, 4));
        MessageAt(d, s, u, v.m, buf, pos, |buf|, EMPTY);
        GroupEnds(d, s, u, v.m, id, buf, pos + |b|);
      } else {
        DelimitedAt(buf, pos, b);
        var p := pos + |Varint(|b|)|;
        MessageAt(d, s, u, v.m, buf, p, p + |b|, EMPTY);
        MessageEnds(d, s, u, v.m, buf, p + |b|);
      }
  }

  lemma MessageEnds(d: Schema, s: Schema, t: nat, m: Message, buf: bytes, pos: nat)
    requires Compatible(d, s) && Valid(s, t, m)
    ensures DecodeLoop(d, t, buf, pos, pos, AddFields(d, t, ById(s[t].fields), m, EMPTY)) == Got(Kept(d, t, m), pos)
  {
    hide Kept, AddFields;
    FromEmpty(d, s, t, m);
    RequiredKept(d, s, t, m);
  }

  lemma GroupEnds(d: Schema, s: Schema, t: nat, m: Message, id: nat, buf: bytes, pos: nat)
    requires Compatible(d, s) && Valid(s, t, m) && s[t].group && id < MAX_ID
    requires At(buf, pos, Tag(id, 4)) && pos < |buf|
    ensures DecodeLoop(d, t, buf, pos, |buf|, AddFields(d, t, ById(s[t].fields), m, EMPTY)) == Got(Kept(d, t, m), pos + |Tag(id, 4)|)
  {
    hide Kept, AddFields, At, Tag, ReadUint32;
    FromEmpty(d, s, t, m);
    RequiredKept(d, s, t, m);
    TagAt(buf, pos, id, 4);
  }

  function PushAll(m: Message, id: nat, vs: seq<Value>): Message {
    if vs == [] then m else WithMany(m, id, vs)
  }

  lemma PushMore(m: Message, id: nat, v: Value, vs: seq<Value>)
    ensures PushAll(WithMany(m, id, [v]), id, vs) == PushAll(m, id, [v] + vs)
  {
    if vs == [] {
      assert [v] + vs == [v];
    } else {
      assert Items(m, id) + [v] + vs == Items(m, id) + ([v] + vs);
      assert m.fields[id := Many(Items(m, id) + [v])][id := Many(Items(m, id) + ([v] + vs))] == m.fields[id := Many(Items(m, id) + ([v] + vs))];
    }
  }

  lemma {:induction false} ManyAt(d: Schema, s: Schema, t: nat, f: Field, vs: seq<Value>, buf: bytes, pos: nat, end: nat, acc: Message)
    requires Compatible(d, s) && t < |s| && f in s[t].fields && f.shape.Repeated?
    requires !(f.shape.packed && Packable(f.kind)) && forall v | v in vs :: ValueOk(s, f.kind, v)
    requires Find(TypeAt(d, t).fields, f.id).Some?
    requires var b := PrintAll(ManyRecords(s, f, vs)); At(buf, pos, b) && |b| < TWO_32 && pos + |b| <= end
    ensures DecodeLoop(d, t, buf, pos, end, acc)
         == DecodeLoop(d, t, buf, pos + |PrintAll(ManyRecords(s, f, vs))|, end, PushAll(acc, f.id, KeptAll(d, f.kind, vs)))
    decreases vs, 1, 0
  {
    hide At, DecodeLoop, Print, Body, ValueRecord, PrintAll, ValueOk, KeptValue, Compatible, WithMany;
    PrintNone();
    if vs != [] {
      var r := ValueRecord(s, f.id, f.kind, true, vs[0]);
      var rest := ManyRecords(s, f, vs[1..]);
      FirstRecord(r, rest);
      AtConcat(buf, pos, Print(r), PrintAll(rest));
      ElementAt(d, s, t, f, vs[0], buf, pos, end, acc);
      var v := KeptValue(d, f.kind, vs[0]);
      ManyAt(d, s, t, f, vs[1..], buf, pos + |Print(r)|, end, WithMany(acc, f.id, [v]));
      PushMore(acc, f.id, v, KeptAll(d, f.kind, vs[1..]));
    }
  }

  lemma {:induction false} ElementAt(d: Schema, s: Schema, t: nat, f: Field, v: Value, buf: bytes, pos: nat, end: nat, acc: Message)
    requires Compatible(d, s) && t < |s| && f in s[t].fields && f.shape.Repeated?
    requires ValueOk(s, f.kind, v)
    requires Find(TypeAt(d, t).fields, f.id).Some?
    requires var b := Print(ValueRecord(s, f.id, f.kind, true, v)); At(buf, pos, b) && |b| < TWO_32 && pos + |b| <= end
    ensures DecodeLoop(d, t, buf, pos, end, acc)
         == DecodeLoop(d, t, buf, pos + |Print(ValueRecord(s, f.id, f.kind, true, v))|, end, WithMany(acc, f.id, [KeptValue(d, f.kind, v)]))
    decreases v, 1, 0
  {
    hide At, DecodeLoop, DecodeValue, Print, Body, ValueRecord, PrintAll, ValueOk, KeptValue, Compatible, WithMany;
    var r := ValueRecord(s, f.id, f.kind, true, v);
    SinglePrint(r);
    FindShared(d, s, t, f);
    IdOf(d, s, t, f, f.kind, true, v);
    RecordAt(d, t, r, buf, pos, end, acc);
    WireOfValue(s, f.id, f.kind, v);
    ValueAt(d, s, f.id, f.kind, true, v, buf, pos + |Tag(r.id, WireType(r.payload))|);
  }

  /** An unpacked element of a packable type is not taken for a packed array. */
  lemma WireOfValue(s: Schema, id: nat, k: Kind, v: Value)
    requires ValueOk(s, k, v)
    ensures Packable(k) ==> WireType(ValueRecord(s, id, k, true, v).payload) != 2
  {
  }

  lemma KeptSome(d: Schema, k: Kind, vs: seq<Value>)
    ensures |KeptAll(d, k, vs)| == |vs|
  {
  }

  lemma {:induction false} PackedSlotAt(d: Schema, s: Schema, t: nat, f: Field, vs: seq<Value>, buf: bytes, pos: nat, end: nat, acc: Message)
    requires Compatible(d, s) && t < |s| && f in s[t].fields && SlotOk(s, f, Many(vs)) && vs != []
    requires f.shape.packed && Packable(f.kind)
    requires Find(TypeAt(d, t).fields, f.id).Some?
    requires var b := PrintAll(SlotRecords(s, f, Many(vs))); At(buf, pos, b) && |b| < TWO_32 && pos + |b| <= end
    ensures DecodeLoop(d, t, buf, pos, end, acc)
         == DecodeLoop(d, t, buf, pos + |PrintAll(SlotRecords(s, f, Many(vs)))|, end, WithMany(acc, f.id, KeptAll(d, f.kind, vs)))
  {
    hide At, DecodeLoop, DecodePacked, Print, PrintAll, PackedBytes, ScalarOk, WithMany, ReadUint32, KeptAll;
    var b := PackedBytes(f.kind.scalar, vs);
    var r := Record(f.id, Delimited(b));
    SinglePrint(r);
    FindShared(d, s, t, f);
    assert f.id < MAX_ID;
    RecordAt(d, t, r, buf, pos, end, acc);
    var p := pos + |Tag(f.id, 2)|;
    DelimitSize(b);
    DelimitedAt(buf, p, b);
    var q := p + |Varint(|b|)|;
    PackedAt(f.kind.scalar, vs, buf, q, q + |b|, []);
    KeptScalars(d, f.kind, vs);
    assert [] + vs == vs;
  }

  lemma {:induction false} KeptScalars(d: Schema, k: Kind, vs: seq<Value>)
    requires k.Basic?
    ensures KeptAll(d, k, vs) == vs
  {
    if vs != [] {
      KeptScalars(d, k, vs[1..]);
    }
  }

  /** The entries that the decoder puts into a map, one after the other. */
  function Revived(d: Schema, k: Kind, es: seq<Entry>): (r: seq<Entry>)
    ensures |r| == |es|
  {
    if es == [] then [] else [Entry(es[0].key, KeptValue(d, k, es[0].val))] + Revived(d, k, es[1..])
  }

  /** Putting them in leaves those of key `__proto__` out. */
  lemma {:induction false} PutRevived(d: Schema, k: Kind, base: seq<Entry>, es: seq<Entry>)
    ensures PutAll(base, Revived(d, k, es)) == PutAll(base, KeptEntries(d, k, es))
    decreases |es|
  {
    hide KeptValue, Put;
    if es != [] {
      var e := Entry(es[0].key, KeptValue(d, k, es[0].val));
      if e.key == PROTO {
        PutProto(base, e);
      }
      PutRevived(d, k, Put(base, e), es[1..]);
    }
  }

  lemma PutProto(es: seq<Entry>, e: Entry)
    requires e.key == PROTO
    ensures Put(es, e) == es
  {
  }

  function PutMany(m: Message, id: nat, es: seq<Entry>): Message {
    if es == [] then m else Message(m.fields[id := Dict(PutAll(Entries(m, id), es))])
  }

  lemma PutMore(m: Message, id: nat, e: Entry, es: seq<Entry>)
    ensures PutMany(WithEntry(m, id, e), id, es) == PutMany(m, id, [e] + es)
  {
    assert ([e] + es)[1..] == es;
    var x := PutAll(Entries(m, id), [e] + es);
    assert x == PutAll(Put(Entries(m, id), e), es);
    assert m.fields[id := Dict(Put(Entries(m, id), e))][id := Dict(x)] == m.fields[id := Dict(x)];
  }

  lemma {:induction false} DictAt(d: Schema, s: Schema, t: nat, f: Field, es: seq<Entry>, buf: bytes, pos: nat, end: nat, acc: Message)
    requires Compatible(d, s) && t < |s| && f in s[t].fields && f.shape.Map?
    requires forall e | e in es :: Utf8.Faithful(e.key) && ValueOk(s, f.kind, e.val)
    requires Find(TypeAt(d, t).fields, f.id).Some?
    requires var b := PrintAll(DictRecords(s, f, es)); At(buf, pos, b) && |b| < TWO_32 && pos + |b| <= end
    ensures DecodeLoop(d, t, buf, pos, end, acc)
         == DecodeLoop(d, t, buf, pos + |PrintAll(DictRecords(s, f, es))|, end, PutMany(acc, f.id, Revived(d, f.kind, es)))
    decreases es, 1, 0
  {
    hide At, DecodeLoop, Print, ValueRecord, PrintAll, ValueOk, KeptValue, Compatible, WithEntry, KeyRecord, Utf8.Faithful, Find;
    PrintNone();
    if es != [] {
      var r := DictRecords(s, f, es)[0];
      var rest := DictRecords(s, f, es[1..]);
      FirstRecord(r, rest);
      AtConcat(buf, pos, Print(r), PrintAll(rest));
      MapEntryAt(d, s, t, f, es, buf, pos, end, acc);
      var kept := Entry(es[0].key, KeptValue(d, f.kind, es[0].val));
      DictAt(d, s, t, f, es[1..], buf, pos + |Print(r)|, end, WithEntry(acc, f.id, kept));
      PutMore(acc, f.id, kept, Revived(d, f.kind, es[1..]));
    }
  }

  lemma {:induction false} MapEntryAt(d: Schema, s: Schema, t: nat, f: Field, es: seq<Entry>, buf: bytes, pos: nat, end: nat, acc: Message)
    requires Compatible(d, s) && t < |s| && f in s[t].fields && f.shape.Map? && es != []
    requires Utf8.Faithful(es[0].key) && ValueOk(s, f.kind, es[0].val)
    requires Find(TypeAt(d, t).fields, f.id).Some?
    requires var b := Print(DictRecords(s, f, es)[0]); At(buf, pos, b) && |b| < TWO_32 && pos + |b| <= end
    ensures DecodeLoop(d, t, buf, pos, end, acc)
         == DecodeLoop(d, t, buf, pos + |Print(DictRecords(s, f, es)[0])|, end,
                       WithEntry(acc, f.id, Entry(es[0].key, KeptValue(d, f.kind, es[0].val))))
    decreases es, 0, 0
  {
    hide At, DecodeLoop, DecodeEntry, Print, Body, ValueRecord, DictRecords, PrintAll, ValueOk, KeptValue, Compatible, WithEntry, KeyRecord, Utf8.Faithful;
    EntryShape(s, f, es);
    var r := DictRecords(s, f, es)[0];
    SinglePrint(r);
    FindShared(d, s, t, f);
    SchemaOf(d, s, t, f);
    RecordAt(d, t, r, buf, pos, end, acc);
    var g := Find(TypeAt(d, t).fields, f.id).value;
    EntryAt(d, s, g, es[0], buf, pos + |Tag(f.id, 2)|, acc);
  }

  function EntryBytes(s: Schema, k: Kind, e: Entry): bytes {
    Print(KeyRecord(e.key)) + Print(ValueRecord(s, 2, k, false, e.val))
  }

  lemma EntryShape(s: Schema, f: Field, es: seq<Entry>)
    requires es != []
    ensures DictRecords(s, f, es) != []
    ensures var r := DictRecords(s, f, es)[0];
      r == Record(f.id, Delimited(EntryBytes(s, f.kind, es[0]))) && Body(r) == Delimit(EntryBytes(s, f.kind, es[0]))
  {
    hide Print, KeyRecord, ValueRecord, Delimit;
  }

  /** One map entry: the skipped length and tags are where the decoder expects them. */
  lemma {:induction false} EntryAt(d: Schema, s: Schema, g: Field, e: Entry, buf: bytes, pos: nat, acc: Message)
    requires Compatible(d, s) && Utf8.Faithful(e.key) && ValueOk(s, g.kind, e.val)
    requires var b := Delimit(EntryBytes(s, g.kind, e)); At(buf, pos, b) && |b| < TWO_32
    ensures DecodeEntry(d, g, buf, pos, acc)
         == Got(WithEntry(acc, g.id, Entry(e.key, KeptValue(d, g.kind, e.val))), pos + |Delimit(EntryBytes(s, g.kind, e))|)
    decreases e, 0, 0
  {
    hide At, ReadUint32, SkipVarint, DecodeValue, KeptValue, WithEntry, ValueRecord, ValueOk, Compatible, Utf8.Faithful, Decoding.ReadString, Utf8.Encode;
    var inner := EntryBytes(s, g.kind, e);
    var r := ValueRecord(s, 2, g.kind, false, e.val);
    var key := Utf8.Encode(e.key);
    DelimitSize(inner);
    DelimitSize(key);
    SkipLength(buf, pos, inner);
    var p := pos + |Varint(|inner| % TWO_32)|;
    AtConcat(buf, p, Print(KeyRecord(e.key)), Print(r));
    ValueWire(s, g.kind, e.val);
    EntryTags(e.key, r);
    AtConcat(buf, p, [10], Delimit(key));
    StringAt(e.key, buf, p + 1);
    var q := p + 1 + |Delimit(key)|;
    AtConcat(buf, q, [16 + WireType(r.payload)], Body(r));
    ValueAt(d, s, 2, g.kind, false, e.val, buf, q + 1);
  }

  lemma SkipLength(buf: bytes, pos: nat, b: bytes)
    requires At(buf, pos, Delimit(b))
    ensures SkipVarint(buf, pos) == Got((), pos + |Varint(|b| % TWO_32)|)
    ensures At(buf, pos + |Varint(|b| % TWO_32)|, b) && |Delimit(b)| == |Varint(|b| % TWO_32)| + |b|
  {
    hide At, SkipVarint, Varint;
    AtConcat(buf, pos, Varint(|b| % TWO_32), b);
    SkipVarintAt(buf, pos, |b| % TWO_32);
  }

  lemma ValueWire(s: Schema, k: Kind, v: Value)
    ensures ValueRecord(s, 2, k, false, v).id == 2
  {
  }

  lemma KeyBody(key: Utf8.Units)
    ensures Body(KeyRecord(key)) == Delimit(Utf8.Encode(key))
  {
  }

  /** Both tags of an entry take one byte. */
  lemma EntryTags(key: Utf8.Units, r: Record)
    requires r.id == 2
    ensures Print(KeyRecord(key)) == [10] + Delimit(Utf8.Encode(key))
    ensures Print(r) == [16 + WireType(r.payload)] + Body(r)
  {
    hide Body, Delimit, Utf8.Encode;
    assert Tag(1, 2) == [10];
    assert Tag(2, WireType(r.payload)) == [16 + WireType(r.payload)];
    KeyBody(key);
  }

  // ---- the accumulated message is the merged one ----

  predicate Takes(d: Schema, t: nat, m: Message, id: nat) {
    id in m.fields && Find(TypeAt(d, t).fields, id).Some? && !Vacant(m.fields[id])
  }

  ghost predicate HasId(fs: seq<Field>, id: nat) {
    exists f :: f in fs && f.id == id
  }

  ghost predicate SameAt(a: Message, b: Message, id: nat) {
    (id in a.fields <==> id in b.fields) && (id in a.fields ==> a.fields[id] == b.fields[id])
  }

  lemma {:induction false} AddFieldsAt(d: Schema, t: nat, fs: seq<Field>, m: Message, acc: Message, id: nat)
    requires DistinctIds(fs)
    ensures var r := AddFields(d, t, fs, m, acc);
      if HasId(fs, id) && Takes(d, t, m, id)
      then id in r.fields && r.fields[id] == Joined(acc, id, KeptSlot(d, Find(TypeAt(d, t).fields, id).value.kind, m.fields[id]))
      else SameAt(r, acc, id)
    decreases |fs|
  {
    hide KeptSlot, Find, Joined;
    if fs != [] {
      var f := fs[0];
      var next := if f.id in m.fields then AddSlot(d, t, f.id, m.fields[f.id], acc) else acc;
      AddFieldsAt(d, t, fs[1..], m, next, id);
      if f.id == id {
        assert !HasId(fs[1..], id);
      } else {
        assert HasId(fs, id) <==> HasId(fs[1..], id);
        assert SameAt(next, acc, id);
        if Takes(d, t, m, id) {
          JoinedSame(next, acc, id, KeptSlot(d, Find(TypeAt(d, t).fields, id).value.kind, m.fields[id]));
        }
      }
    }
  }

  lemma JoinedSame(a: Message, b: Message, id: nat, slot: Slot)
    requires SameAt(a, b, id)
    ensures Joined(a, id, slot) == Joined(b, id, slot)
  {
  }

  lemma AddFieldsMerge(d: Schema, s: Schema, t: nat, m: Message, acc: Message)
    requires Compatible(d, s) && t < |s|
    ensures AddFields(d, t, ById(s[t].fields), m, acc) == Merge(acc, Kept(d, t, m))
  {
    var fs := ById(s[t].fields);
    var r, k := AddFields(d, t, fs, m, acc), Kept(d, t, m);
    ByIdSame(s[t].fields);
    ByIdDistinct(s[t].fields);
    forall id: nat
      ensures SameAt(r, Merge(acc, k), id)
    {
      AddFieldsAt(d, t, fs, m, acc, id);
      if Takes(d, t, m, id) {
        var f := Find(TypeAt(d, t).fields, id).value;
        assert Shared(f, s[t].fields);
        assert HasId(fs, id);
      }
    }
    MessagesEqual(r, Merge(acc, k));
  }

  lemma MessagesEqual(a: Message, b: Message)
    requires forall id: nat :: SameAt(a, b, id)
    ensures a == b
  {
    assert forall id: nat :: id in a.fields <==> id in b.fields by {
      forall id: nat
        ensures id in a.fields <==> id in b.fields
      {
        assert SameAt(a, b, id);
      }
    }
    assert forall id: nat | id in a.fields :: a.fields[id] == b.fields[id] by {
      forall id: nat | id in a.fields
        ensures a.fields[id] == b.fields[id]
      {
        assert SameAt(a, b, id);
      }
    }
    assert a.fields == b.fields;
  }

  lemma {:induction false} PutNew(es: seq<Entry>, e: Entry)
    requires e.key != PROTO && forall x | x in es :: x.key != e.key
    ensures Put(es, e) == es + [e]
  {
    if es != [] {
      PutNew(es[1..], e);
    }
  }

  lemma {:induction false} PutAllNew(es: seq<Entry>, more: seq<Entry>)
    requires DistinctKeys(es + more) && forall e | e in more :: e.key != PROTO
    ensures PutAll(es, more) == es + more
    decreases |more|
  {
    if more == [] {
      assert es + more == es;
    } else {
      forall x | x in es
        ensures x.key != more[0].key
      {
        var i :| 0 <= i < |es| && es[i] == x;
        assert (es + more)[i] == x && (es + more)[|es|] == more[0];
      }
      PutNew(es, more[0]);
      assert es + [more[0]] + more[1..] == es + more;
      PutAllNew(es + [more[0]], more[1..]);
    }
  }

  /** Merging into nothing changes nothing. */
  lemma FromEmpty(d: Schema, s: Schema, t: nat, m: Message)
    requires Compatible(d, s) && Valid(s, t, m)
    ensures AddFields(d, t, ById(s[t].fields), m, EMPTY) == Kept(d, t, m)
  {
    hide AddFields;
    var k := Kept(d, t, m);
    AddFieldsMerge(d, s, t, m, EMPTY);
    forall id: nat
      ensures SameAt(Merge(EMPTY, k), k, id)
    {
      if id in k.fields {
        KeptJoin(d, s, t, m, id);
      }
    }
    MessagesEqual(Merge(EMPTY, k), k);
  }

  lemma KeptJoin(d: Schema, s: Schema, t: nat, m: Message, id: nat)
    requires Compatible(d, s) && Valid(s, t, m) && id in Kept(d, t, m).fields
    ensures Joined(EMPTY, id, Kept(d, t, m).fields[id]) == Kept(d, t, m).fields[id]
  {
    hide KeptAll, KeptEntries, ValueOk, PutAll, Utf8.Faithful;
    var f := Find(TypeAt(d, t).fields, id).value;
    assert Shared(f, s[t].fields);
    var g :| g in s[t].fields && g.id == f.id;
    assert SlotOk(s, g, m.fields[id]);
    match m.fields[id]
    case One(v) =>
    case Many(vs) => assert [] + KeptAll(d, f.kind, vs) == KeptAll(d, f.kind, vs);
    case Dict(es) =>
      var kept := KeptEntries(d, f.kind, es);
      assert [] + kept == kept;
      KeptKeys(d, f.kind, es);
      PutAllNew([], kept);
  }

  lemma {:induction false} KeptKeys(d: Schema, k: Kind, es: seq<Entry>)
    requires DistinctKeys(es)
    ensures DistinctKeys(KeptEntries(d, k, es))
  {
    if es != [] {
      KeptKeys(d, k, es[1..]);
      var rest := KeptEntries(d, k, es[1..]);
      forall e | e in rest
        ensures e.key != es[0].key
      {
        var f :| f in es[1..] && f.key == e.key;
      }
    }
  }

  lemma RequiredKept(d: Schema, s: Schema, t: nat, m: Message)
    requires Compatible(d, s) && Valid(s, t, m)
    ensures forall f | f in TypeAt(d, t).fields :: f.shape.Required? ==> f.id in Kept(d, t, m).fields
  {
    forall f | f in TypeAt(d, t).fields && f.shape.Required?
      ensures f.id in Kept(d, t, m).fields
    {
      assert Shared(f, s[t].fields);
      var g :| g in s[t].fields && g.id == f.id && Fits(f.shape, g.shape);
      assert SlotOk(s, g, m.fields[g.id]);
    }
  }

  // ---- the three theorems ----

  /** The decoding loop, started anywhere with anything already decoded, takes the encoding of a
      message to the merge of both. */
  lemma LoopMerges(d: Schema, s: Schema, t: nat, m: Message, buf: bytes, pos: nat, end: nat, acc: Message)
    requires Compatible(d, s) && Valid(s, t, m)
    requires At(buf, pos, Encode(s, t, m)) && |Encode(s, t, m)| < TWO_32 && pos + |Encode(s, t, m)| <= end
    ensures DecodeLoop(d, t, buf, pos, end, acc)
         == DecodeLoop(d, t, buf, pos + |Encode(s, t, m)|, end, Merge(acc, Kept(d, t, m)))
  {
    hide DecodeLoop, Encode, At, Merge, AddFields, Kept;
    MessageAt(d, s, t, m, buf, pos, end, acc);
    AddFieldsMerge(d, s, t, m, acc);
  }

  /** Forward compatibility: a decoder that lacks some of the encoder's fields reads the message
      restricted to the fields it knows, and all of its bytes. */
  lemma ForwardCompatible(d: Schema, s: Schema, t: nat, m: Message)
    requires Compatible(d, s) && Valid(s, t, m) && |Encode(s, t, m)| < TWO_32
    ensures Decode(d, t, Encode(s, t, m)) == Got(Kept(d, t, m), |Encode(s, t, m)|)
  {
    hide Encode, At, AddFields, Kept;
    var b := Encode(s, t, m);
    WholeAt(b);
    MessageAt(d, s, t, m, b, 0, |b|, EMPTY);
    MessageEnds(d, s, t, m, b, |b|);
  }

  /** Decoding consumes exactly the bytes of an encoding, and inverts the encoder exactly on the tidy
      messages. */
  lemma DecodeInverts(s: Schema, t: nat, m: Message)
    requires WellFormed(s) && Valid(s, t, m) && |Encode(s, t, m)| < TWO_32
    ensures Decode(s, t, Encode(s, t, m)) == Got(Kept(s, t, m), |Encode(s, t, m)|)
    ensures Decode(s, t, Encode(s, t, m)) == Got(m, |Encode(s, t, m)|) <==> Tidy(s, t, m)
  {
    hide Encode, Decode, Kept, Valid;
    CompatibleSelf(s);
    ForwardCompatible(s, s, t, m);
    TidyKept(s, t, m);
  }

  /** An element of an unknown field with a wire type that does not exist, or that ends a group where
      there is none, makes the decoder throw, whatever comes before and after it. */
  lemma InvalidThrows(d: Schema, s: Schema, t: nat, m: Message, id: nat, wireType: nat, tail: bytes)
    requires Compatible(d, s) && Valid(s, t, m) && |Encode(s, t, m)| < TWO_32
    requires id < MAX_ID && forall f | f in TypeAt(d, t).fields :: f.id != id
    requires wireType in {6, 7} || (wireType == 4 && !TypeAt(d, t).group)
    ensures Decode(d, t, Encode(s, t, m) + Tag(id, wireType) + tail) == Throw(InvalidWireType)
  {
    hide Encode, At, Merge, Kept, Compatible, Valid, Tag, ReadUint32;
    var x, y := Encode(s, t, m), Tag(id, wireType);
    var b := x + y + tail;
    assert x + (y + tail) == b;
    WholeAt(b);
    AtConcat(b, 0, x, y + tail);
    AtConcat(b, |x|, y, tail);
    LoopMerges(d, s, t, m, b, 0, |b|, EMPTY);
    TagAt(b, |x|, id, wireType);
    assert Find(TypeAt(d, t).fields, id).None?;
  }

  lemma TagSize(id: nat, wireType: nat)
    requires id < MAX_ID && wireType < 8
    ensures |Tag(id, wireType)| <= 5
  {
    hide Varint;
    VarintSizes(id * 8 + wireType);
  }

  lemma DelimitBound(b: bytes)
    requires |b| < TWO_32
    ensures |Delimit(b)| <= 5 + |b|
  {
    hide Varint;
    VarintSizes(|b|);
  }

  lemma EntrySize(s: Schema, e: Entry)
    requires |e.key| < 1000 && e.val.Num? && 0 <= e.val.n < TWO_32
    ensures |EntryBytes(s, Basic(Uint32), e)| <= 4 * |e.key| + 20
  {
    hide Varint, Tag, Delimit, Utf8.EncodeFrom;
    var key := Utf8.Encode(e.key);
    Utf8.EncodeBound(e.key, 0);
    DelimitBound(key);
    TagSize(1, 2);
    TagSize(2, 0);
    VarintSizes(e.val.n);
    assert Print(KeyRecord(e.key)) == Tag(1, 2) + Delimit(key);
    assert Print(ValueRecord(s, 2, Basic(Uint32), false, e.val)) == Tag(2, 0) + Varint(e.val.n);
  }

  lemma CountsSize(m: Message, e: Entry)
    requires |e.key| < 1000 && e.val.Num? && 0 <= e.val.n < TWO_32 && m == Message(map[1 := Dict([e])])
    ensures |Encode(COUNTS, 0, m)| < TWO_32
  {
    hide Varint, Tag, Delimit, EntryBytes, Records;
    var inner := EntryBytes(COUNTS, Basic(Uint32), e);
    EntrySize(COUNTS, e);
    CountsRecords(m, COUNTS[0].fields[0], e);
    var r := Record(1, Delimited(inner));
    SinglePrint(r);
    DelimitBound(inner);
    TagSize(1, 2);
    assert Print(r) == Tag(1, 2) + Delimit(inner);
  }

  lemma CountsRecords(m: Message, f: Field, e: Entry)
    requires f == COUNTS[0].fields[0] && m == Message(map[1 := Dict([e])])
    ensures Records(COUNTS, 0, m) == [Record(1, Delimited(EntryBytes(COUNTS, f.kind, e)))]
  {
    hide Print, KeyRecord, ValueRecord;
    assert [f][1..] == [] && [e][1..] == [];
    assert ById([f]) == [f];
    assert FieldRecords(COUNTS, [f], m) == DictRecords(COUNTS, f, [e]) + [];
  }

  const COUNTS: Schema := [MessageType([Field(1, Basic(Uint32), Map)], false)]

  /** A map of numbers with an own property `__proto__`, as a JSON parser makes it, comes back empty. */
  lemma ProtoLost()
    ensures var m := Message(map[1 := Dict([Entry(PROTO, Num(7))])]);
      && WellFormed(COUNTS) && Valid(COUNTS, 0, m) && |Encode(COUNTS, 0, m)| < TWO_32
      && Decode(COUNTS, 0, Encode(COUNTS, 0, m)) == Got(Message(map[1 := Dict([])]), |Encode(COUNTS, 0, m)|)
  {
    hide Decode, Encode, Utf8.Faithful;
    var m := Message(map[1 := Dict([Entry(PROTO, Num(7))])]);
    Utf8.ShortFaithful(PROTO);
    CountsSize(m, Entry(PROTO, Num(7)));
    assert forall f | f in COUNTS[0].fields :: f == COUNTS[0].fields[0];
    assert SlotOk(COUNTS, COUNTS[0].fields[0], m.fields[1]);
    assert Find(COUNTS[0].fields, 1) == Some(COUNTS[0].fields[0]);
    assert KeptEntries(COUNTS, Basic(Uint32), [Entry(PROTO, Num(7))]) == [];
    assert Kept(COUNTS, 0, m).fields == map[1 := Dict([])];
    DecodeInverts(COUNTS, 0, m);
  }

  /** Two encodings one after the other decode to the merged message: arrays appended, map
      entries overridden by key, singular fields replaced by the later one as a whole. */
  lemma ConcatMerges(d: Schema, s: Schema, t: nat, a: Message, b: Message)
    requires Compatible(d, s) && Valid(s, t, a) && Valid(s, t, b)
    requires |Encode(s, t, a)| < TWO_32 && |Encode(s, t, b)| < TWO_32
    ensures var x := Encode(s, t, a) + Encode(s, t, b);
      Decode(d, t, x) == Got(Merge(Kept(d, t, a), Kept(d, t, b)), |x|)
  {
    hide Encode, At, AddFields, Kept, Compatible, DecodeLoop, Merge;
    var x, y := Encode(s, t, a), Encode(s, t, b);
    WholeAt(x + y);
    AtConcat(x + y, 0, x, y);
    MessageAt(d, s, t, a, x + y, 0, |x + y|, EMPTY);
    FromEmpty(d, s, t, a);
    LoopMerges(d, s, t, b, x + y, |x|, |x + y|, Kept(d, t, a));
    MergedEnds(d, s, t, a, Kept(d, t, b), x + y, |x + y|);
  }

  lemma MergedEnds(d: Schema, s: Schema, t: nat, a: Message, b: Message, buf: bytes, pos: nat)
    requires Compatible(d, s) && Valid(s, t, a)
    ensures DecodeLoop(d, t, buf, pos, pos, Merge(Kept(d, t, a), b)) == Got(Merge(Kept(d, t, a), b), pos)
  {
    hide Kept, Compatible, Valid;
    RequiredKept(d, s, t, a);
  }

  /** A message without properties that its type does not know, without empty arrays or maps, and
      without map entries of key `__proto__`, at every depth. */
  ghost predicate Tidy(s: Schema, t: nat, m: Message)
    decreases m, 2
  {
    forall id | id in m.fields ::
      var f := Find(TypeAt(s, t).fields, id);
      f.Some? && !Vacant(m.fields[id]) && TidySlot(s, f.value.kind, m.fields[id])
  }

  ghost predicate TidySlot(s: Schema, k: Kind, slot: Slot)
    decreases slot, 1
  {
    match slot
    case One(v) => TidyValue(s, k, v)
    case Many(vs) => forall v | v in vs :: TidyValue(s, k, v)
    case Dict(es) => forall e | e in es :: e.key != PROTO && TidyValue(s, k, e.val)
  }

  ghost predicate TidyValue(s: Schema, k: Kind, v: Value)
    decreases v, 0
  {
    k.Ref? && v.Sub? ==> Tidy(s, k.index, v.m)
  }

  /** The tidy messages are those that a decoder sees as they are. */
  lemma {:induction false} TidyKept(s: Schema, t: nat, m: Message)
    ensures Kept(s, t, m) == m <==> Tidy(s, t, m)
    decreases m, 2
  {
    var fs := TypeAt(s, t).fields;
    forall id | id in m.fields && Find(fs, id).Some?
      ensures KeptSlot(s, Find(fs, id).value.kind, m.fields[id]) == m.fields[id] <==> TidySlot(s, Find(fs, id).value.kind, m.fields[id])
    {
      TidySlotKept(s, Find(fs, id).value.kind, m.fields[id]);
    }
    if Tidy(s, t, m) {
      assert forall id: nat :: SameAt(Kept(s, t, m), m, id);
      MessagesEqual(Kept(s, t, m), m);
    }
    if Kept(s, t, m) == m {
      forall id | id in m.fields
        ensures Find(fs, id).Some? && !Vacant(m.fields[id]) && TidySlot(s, Find(fs, id).value.kind, m.fields[id])
      {
        assert id in Kept(s, t, m).fields;
        assert Kept(s, t, m).fields[id] == m.fields[id];
      }
    }
  }

  lemma {:induction false} TidySlotKept(s: Schema, k: Kind, slot: Slot)
    ensures KeptSlot(s, k, slot) == slot <==> TidySlot(s, k, slot)
    decreases slot, 1, 1
  {
    match slot
    case One(v) => TidyValueKept(s, k, v);
    case Many(vs) => TidyAllKept(s, k, vs);
    case Dict(es) => TidyEntriesKept(s, k, es);
  }

  lemma {:induction false} TidyAllKept(s: Schema, k: Kind, vs: seq<Value>)
    ensures KeptAll(s, k, vs) == vs <==> forall v | v in vs :: TidyValue(s, k, v)
    decreases vs, 1, 0
  {
    if vs != [] {
      TidyValueKept(s, k, vs[0]);
      TidyAllKept(s, k, vs[1..]);
      assert vs == [vs[0]] + vs[1..];
      ConsEqual(KeptValue(s, k, vs[0]), KeptAll(s, k, vs[1..]), vs[0], vs[1..]);
    }
  }

  lemma ConsEqual<A>(x: A, xs: seq<A>, y: A, ys: seq<A>)
    ensures [x] + xs == [y] + ys <==> x == y && xs == ys
  {
    if [x] + xs == [y] + ys {
      assert ([x] + xs)[0] == x && ([x] + xs)[1..] == xs;
      assert ([y] + ys)[0] == y && ([y] + ys)[1..] == ys;
    }
  }

  lemma {:induction false} KeptFewer(d: Schema, k: Kind, es: seq<Entry>)
    ensures |KeptEntries(d, k, es)| <= |es|
  {
    hide KeptValue;
    if es != [] {
      KeptFewer(d, k, es[1..]);
    }
  }

  lemma {:induction false} TidyEntriesKept(s: Schema, k: Kind, es: seq<Entry>)
    ensures KeptEntries(s, k, es) == es <==> forall e | e in es :: e.key != PROTO && TidyValue(s, k, e.val)
    decreases es, 1, 0
  {
    hide KeptValue, TidyValue;
    if es != [] {
      var e, rest := es[0], es[1..];
      assert es == [e] + rest;
      if e.key == PROTO {
        KeptFewer(s, k, rest);
      } else {
        TidyValueKept(s, k, e.val);
        TidyEntriesKept(s, k, rest);
        ConsEqual(Entry(e.key, KeptValue(s, k, e.val)), KeptEntries(s, k, rest), e, rest);
      }
    }
  }

  lemma {:induction false} TidyValueKept(s: Schema, k: Kind, v: Value)
    ensures KeptValue(s, k, v) == v <==> TidyValue(s, k, v)
    decreases v, 0, 0
  {
    if k.Ref? && v.Sub? {
      TidyKept(s, k.index, v.m);
    }
  }
}
