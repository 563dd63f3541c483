/** What the bytes of an encoded message are, said of the bytes and the message alone: a sequence of
    schema-free records in the order of their ids, with the payloads that the Protocol Buffers Encoding
    specification asks for. */
module Conformance {
  import opened Bits
  import opened Varints
  import opened Reading
  import opened Wire
  import opened Schemas
  import opened Encoding
  import opened Longs
  import Utf8
  import RoundTrip

  /** The wire type of each basic type. */
  function WireNumber(sc: Scalar): nat {
    if sc in {Double, Fixed64Type, Sfixed64} then 1
    else if sc in {Float, Fixed32Type, Sfixed32} then 5
    else if sc in {String, Bytes} then 2
    else 0
  }

  /** The number whose digits to base 256 are the bytes, lowest first. */
  function LowFirst(b: bytes): nat {
    if b == [] then 0 else (b[0] as nat) + 0x100 * LowFirst(b[1..])
  }

  function FoldSign(n: int): int {
    if n < 0 then -2 * n - 1 else 2 * n
  }

  function Number(l: Long): int {
    (l.lo as int) + 0x1_0000_0000 * (l.hi as int)
  }

  /** The payload is that of a value of the basic type. */
  ghost predicate Carries(sc: Scalar, v: Value, p: Payload) {
    && WireType(p) == WireNumber(sc)
    && match sc
       case Int32 => v.Num? && p.VarintPayload? && p.n == if v.n < 0 then 0x1_0000_0000_0000_0000 + v.n else v.n
       case Uint32 => v.Num? && p.VarintPayload? && p.n == v.n
       case Sint32 => v.Num? && p.VarintPayload? && p.n == FoldSign(v.n)
       case Bool => v.Flag? && p == VarintPayload(if v.b then 1 else 0)
       case Int64 | Uint64 => v.Big? && p.VarintPayload? && p.n == Number(v.l)
       case Sint64 =>
         && v.Big? && p.VarintPayload?
         && p.n == FoldSign(if v.l.hi < 0x8000_0000 then Number(v.l) else Number(v.l) - 0x1_0000_0000_0000_0000)
       case Fixed32Type | Sfixed32 =>
         v.Num? && p.Four? && |p.b| == 4 && LowFirst(p.b) == if v.n < 0 then 0x1_0000_0000 + v.n else v.n
       case Fixed64Type | Sfixed64 => v.Big? && p.Eight? && |p.b| == 8 && LowFirst(p.b) == Number(v.l)
       case Double => v.Raw? && p == Eight(v.raw)
       case Float => v.Raw? && p == Wire.Four(v.raw)
       case String => v.Text? && p.Delimited? && Utf8.Layout(Utf8.CodePoints(v.units, 0), p.b)
       case Bytes => v.Octets? && p == Delimited(v.octets)
  }

  /** The payloads under an id, in their order. */
  function Of(rs: seq<Record>, id: nat): seq<Payload> {
    if rs == [] then [] else (if rs[0].id == id then [rs[0].payload] else []) + Of(rs[1..], id)
  }

  /** `b` is the bytes of the elements, one after the other, without tags. */
  ghost predicate Elements(sc: Scalar, vs: seq<Value>, b: bytes)
    decreases |vs|
  {
    if vs == [] then b == []
    else exists p, rest :: Carries(sc, vs[0], p) && b == PayloadBytes(p) + rest && Elements(sc, vs[1..], rest)
  }

  /** The records are in the order of their ids, each is of a field of the message, and each field has
      the payloads that go with its value. */
  ghost predicate Conforms(s: Schema, t: nat, m: Message, rs: seq<Record>)
    decreases m, 3
  {
    FieldsConform(s, TypeAt(s, t).fields, m, rs)
  }

  ghost predicate FieldsConform(s: Schema, fs: seq<Field>, m: Message, rs: seq<Record>)
    decreases m, 2
  {
    && (forall i, j | 0 <= i < j < |rs| :: rs[i].id <= rs[j].id)
    && (forall r | r in rs :: exists f :: f in fs && f.id == r.id && f.id in m.fields)
    && (forall f | f in fs && f.id in m.fields :: SlotConforms(s, f, m.fields[f.id], Of(rs, f.id)))
  }

  /** A singular field has one record, a packed array one unless it is empty, any other array one for
      each element, and a map one for each entry. */
  ghost predicate SlotConforms(s: Schema, f: Field, slot: Slot, ps: seq<Payload>)
    decreases slot, 1
  {
    match slot
    case One(v) => |ps| == 1 && ValueConforms(s, f.kind, true, v, ps[0])
    case Many(vs) =>
      if f.shape == Repeated(true) && f.kind.Basic? && WireNumber(f.kind.scalar) != 2 then
        if vs == [] then ps == []
        else |ps| == 1 && WireType(ps[0]) == 2 && ps[0].Delimited? && Elements(f.kind.scalar, vs, ps[0].b)
      else |ps| == |vs| && forall i | 0 <= i < |vs| :: ValueConforms(s, f.kind, true, vs[i], ps[i])
    case Dict(es) => |ps| == |es| && forall i | 0 <= i < |es| :: EntryConforms(s, f.kind, es[i], ps[i])
  }

  /** An entry is a message of the key as field 1 and the value as field 2. */
  ghost predicate EntryConforms(s: Schema, k: Kind, e: Entry, p: Payload)
    decreases e, 1
  {
    && WireType(p) == 2 && p.Delimited?
    && exists key, val :: Carries(String, Text(e.key), key) && ValueConforms(s, k, false, e.val, val)
                          && p.b == PrintAll([Record(1, key), Record(2, val)])
  }

  /** A message is the records of a group, where its type is one and groups are allowed, and otherwise
      their bytes. */
  ghost predicate ValueConforms(s: Schema, k: Kind, groups: bool, v: Value, p: Payload)
    decreases v, 0
  {
    match k
    case Basic(sc) => Carries(sc, v, p)
    case Ref(t) =>
      && v.Sub?
      && if groups && TypeAt(s, t).group then WireType(p) == 3 && p.Group? && Conforms(s, t, v.m, p.records)
         else WireType(p) == 2 && p.Delimited? && exists rs :: p.b == PrintAll(rs) && Conforms(s, t, v.m, rs)
  }

  /** `b` is an encoding of the message. */
  ghost predicate Written(s: Schema, t: nat, m: Message, b: bytes) {
    exists rs :: b == PrintAll(rs) && Conforms(s, t, m, rs)
  }

  // ---- basic types ----

  lemma LowFirstFour(w: word)
    ensures LowFirst(Fixed32(w)) == w
  {
    var b := Fixed32(w);
    FourBytes(w);
    assert b[1..][1..] == b[2..] && b[2..][1..] == b[3..] && b[3..] == [b[3]];
    assert LowFirst(b[3..]) == b[3];
    assert LowFirst(b[2..]) == b[2] + 0x100 * LowFirst(b[3..]);
    assert LowFirst(b[1..]) == b[1] + 0x100 * LowFirst(b[2..]);
  }

  lemma LowFirstEight(l: Long)
    ensures LowFirst(Fixed32(l.lo) + Fixed32(l.hi)) == Number(l)
  {
    hide Fixed32;
    var a, b := Fixed32(l.lo), Fixed32(l.hi);
    LowFirstFour(l.lo);
    LowFirstFour(l.hi);
    LowFirstConcat(a, b);
  }

  lemma LowFirstConcat(a: bytes, b: bytes)
    requires |a| == 4
    ensures LowFirst(a + b) == LowFirst(a) + 0x1_0000_0000 * LowFirst(b)
  {
    var c := a + b;
    assert c[1..] == a[1..] + b && c[1..][1..] == a[2..] + b && c[2..][1..] == a[3..] + b && c[3..][1..] == b;
    assert a[1..][1..] == a[2..] && a[2..][1..] == a[3..] && a[3..][1..] == [];
    assert LowFirst(c[3..]) == a[3] + 0x100 * LowFirst(b);
    assert LowFirst(c[2..]) == a[2] + 0x100 * LowFirst(c[3..]);
    assert LowFirst(c[1..]) == a[1] + 0x100 * LowFirst(c[2..]);
    assert LowFirst(a[3..]) == a[3];
    assert LowFirst(a[2..]) == a[2] + 0x100 * LowFirst(a[3..]);
    assert LowFirst(a[1..]) == a[1] + 0x100 * LowFirst(a[2..]);
  }

  lemma ScalarConforms(sc: Scalar, v: Value)
    requires ScalarOk(sc, v)
    ensures Carries(sc, v, ScalarPayload(sc, v))
  {
    hide Utf8.Faithful, Fixed32, LowFirst, Utf8.Layout, Utf8.CodePoints;
    match sc
    case Int32 =>
      if v.n < 0 {
        DivUnique(v.n, TWO_64, -1, TWO_64 + v.n);
      } else {
        SmallMod(v.n, TWO_32);
      }
    case Uint32 => SmallMod(v.n, TWO_32);
    case Sint32 => Int32Bits(v.n);
    case Fixed32Type =>
      SmallMod(v.n, TWO_32);
      LowFirstFour(v.n);
    case Sfixed32 =>
      Int32Bits(v.n);
      LowFirstFour(v.n % TWO_32);
    case Fixed64Type => LowFirstEight(v.l);
    case Sfixed64 => LowFirstEight(v.l);
    case String => Utf8.EncodeLayout(v.units, 0);
    case _ =>
  }

  lemma {:induction false} PackedConforms(sc: Scalar, vs: seq<Value>)
    requires forall v | v in vs :: ScalarOk(sc, v)
    ensures Elements(sc, vs, PackedBytes(sc, vs))
    decreases |vs|
  {
    hide Carries, ScalarPayload, ScalarOk, PayloadBytes;
    if vs != [] {
      ScalarConforms(sc, vs[0]);
      PackedConforms(sc, vs[1..]);
      var p, rest := ScalarPayload(sc, vs[0]), PackedBytes(sc, vs[1..]);
      assert PackedBytes(sc, vs) == PayloadBytes(p) + rest;
    }
  }

  // ---- the records of an encoder ----

  lemma {:induction false} OfConcat(a: seq<Record>, b: seq<Record>, id: nat)
    ensures Of(a + b, id) == Of(a, id) + Of(b, id)
  {
    if a == [] {
      assert a + b == b;
    } else {
      var c := a + b;
      assert c[0] == a[0] && c[1..] == a[1..] + b;
      OfConcat(a[1..], b, id);
      OfStep(a, id);
      OfStep(c, id);
      hide Of;
      assert Of(c, id) == Of(a[..1], id) + (Of(a[1..], id) + Of(b, id)) by {
        assert c[..1] == a[..1];
      }
      assert Of(c, id) == Of(a[..1], id) + Of(a[1..], id) + Of(b, id);
    }
  }

  lemma OfStep(rs: seq<Record>, id: nat)
    requires rs != []
    ensures Of(rs, id) == Of(rs[..1], id) + Of(rs[1..], id)
  {
    assert rs[..1][1..] == [];
  }

  lemma {:induction false} OfNone(rs: seq<Record>, id: nat)
    requires forall r | r in rs :: r.id != id
    ensures Of(rs, id) == []
  {
    if rs != [] {
      OfNone(rs[1..], id);
    }
  }

  lemma {:induction false} OfAll(rs: seq<Record>, id: nat)
    requires forall r | r in rs :: r.id == id
    ensures |Of(rs, id)| == |rs|
    ensures forall i | 0 <= i < |rs| :: Of(rs, id)[i] == rs[i].payload
  {
    if rs != [] {
      OfAll(rs[1..], id);
    }
  }

  /** The encoder of every valid message writes records that conform to it. */
  lemma {:induction false} MessageConforms(s: Schema, t: nat, m: Message)
    requires WellFormed(s) && Valid(s, t, m)
    ensures Conforms(s, t, m, Records(s, t, m))
    decreases m, 3, 0
  {
    hide SlotOk, FieldRecords;
    var fs := s[t].fields;
    ByIdSame(fs);
    ByIdDistinct(fs);
    ByIdSorted(fs);
    AllConform(s, ById(fs), m);
    Reordered(s, fs, ById(fs), m, Records(s, t, m));
  }

  lemma Reordered(s: Schema, fs: seq<Field>, gs: seq<Field>, m: Message, rs: seq<Record>)
    requires FieldsConform(s, gs, m, rs) && forall f :: f in gs <==> f in fs
    ensures FieldsConform(s, fs, m, rs)
  {
    hide SlotConforms;
  }

  lemma {:induction false} AllConform(s: Schema, fs: seq<Field>, m: Message)
    requires WellFormed(s) && DistinctIds(fs)
    requires forall i, j | 0 <= i < j < |fs| :: fs[i].id <= fs[j].id
    requires forall f | f in fs && f.id in m.fields :: SlotOk(s, f, m.fields[f.id])
    ensures FieldsConform(s, fs, m, FieldRecords(s, fs, m))
    decreases m, 2, |fs|
  {
    hide SlotRecords, SlotOk, SlotConforms, FieldsConform, WellFormed;
    if fs == [] {
      NothingConforms(s, m);
    } else {
      var f := fs[0];
      var rest := FieldRecords(s, fs[1..], m);
      AllConform(s, fs[1..], m);
      if f.id in m.fields {
        var first := SlotRecords(s, f, m.fields[f.id]);
        RoundTrip.SameIds(s, f, m.fields[f.id]);
        SlotGood(s, f, m.fields[f.id]);
        OneMore(s, fs, m, first, rest);
      } else {
        assert [] + rest == rest;
        OneLess(s, fs, m, rest);
      }
    }
  }

  lemma NothingConforms(s: Schema, m: Message)
    ensures FieldsConform(s, [], m, [])
  {
  }

  /** Leaving out a field that the message does not have. */
  lemma OneLess(s: Schema, fs: seq<Field>, m: Message, rs: seq<Record>)
    requires fs != [] && FieldsConform(s, fs[1..], m, rs) && fs[0].id !in m.fields
    ensures FieldsConform(s, fs, m, rs)
  {
    hide SlotConforms, Of;
    forall r | r in rs
      ensures exists f :: f in fs && f.id == r.id && f.id in m.fields
    {
      var f :| f in fs[1..] && f.id == r.id && f.id in m.fields;
    }
    forall f | f in fs && f.id in m.fields
      ensures SlotConforms(s, f, m.fields[f.id], Of(rs, f.id))
    {
      assert f in fs[1..];
    }
  }

  /** The records of a field before those of fields of higher ids. */
  lemma OneMore(s: Schema, fs: seq<Field>, m: Message, first: seq<Record>, rest: seq<Record>)
    requires fs != [] && DistinctIds(fs) && (forall i, j | 0 <= i < j < |fs| :: fs[i].id <= fs[j].id)
    requires FieldsConform(s, fs[1..], m, rest)
    requires fs[0].id in m.fields && forall r | r in first :: r.id == fs[0].id
    requires SlotConforms(s, fs[0], m.fields[fs[0].id], Of(first, fs[0].id))
    ensures FieldsConform(s, fs, m, first + rest)
  {
    hide SlotConforms, Of;
    var rs := first + rest;
    forall r | r in rest
      ensures r.id > fs[0].id && exists f :: f in fs && f.id == r.id && f.id in m.fields
    {
      var f :| f in fs[1..] && f.id == r.id && f.id in m.fields;
      LaterId(fs, f);
    }
    forall r | r in rs
      ensures exists f :: f in fs && f.id == r.id && f.id in m.fields
    {
      if r in first {
        assert fs[0].id == r.id;
      }
    }
    forall i, j | 0 <= i < j < |rs|
      ensures rs[i].id <= rs[j].id
    {
      if i < |first| {
        assert rs[i] in first;
        assert j < |first| ==> rs[j] in first;
        assert j >= |first| ==> rs[j] in rest;
      }
    }
    forall f | f in fs && f.id in m.fields
      ensures SlotConforms(s, f, m.fields[f.id], Of(rs, f.id))
    {
      OfConcat(first, rest, f.id);
      if f == fs[0] {
        OfNone(rest, f.id);
        assert Of(first, f.id) + [] == Of(first, f.id);
      } else {
        LaterId(fs, f);
        OfNone(first, f.id);
        assert [] + Of(rest, f.id) == Of(rest, f.id);
      }
    }
  }

  lemma LaterId(fs: seq<Field>, f: Field)
    requires fs != [] && DistinctIds(fs) && (forall i, j | 0 <= i < j < |fs| :: fs[i].id <= fs[j].id)
    requires f in fs[1..] || (f in fs && f != fs[0])
    ensures f.id > fs[0].id && f in fs[1..]
  {
    var i :| 0 <= i < |fs| && fs[i] == f && i != 0;
    assert fs[1..][i - 1] == f;
  }

  lemma {:induction false} SlotGood(s: Schema, f: Field, slot: Slot)
    requires WellFormed(s) && SlotOk(s, f, slot)
    ensures SlotConforms(s, f, slot, Of(SlotRecords(s, f, slot), f.id))
    decreases slot, 1, 0
  {
    hide ValueRecord, ManyRecords, DictRecords, ValueConforms, EntryConforms, PackedBytes, ScalarOk, Elements, WellFormed, Utf8.Faithful;
    RoundTrip.SameIds(s, f, slot);
    OfAll(SlotRecords(s, f, slot), f.id);
    match slot
    case One(v) => ValueGood(s, f.id, f.kind, true, v);
    case Many(vs) =>
      if f.shape.packed && Packable(f.kind) {
        if vs != [] {
          PackedConforms(f.kind.scalar, vs);
        }
      } else {
        ManyGood(s, f, vs);
      }
    case Dict(es) => DictGood(s, f, es);
  }

  lemma {:induction false} ManyGood(s: Schema, f: Field, vs: seq<Value>)
    requires WellFormed(s) && forall v | v in vs :: ValueOk(s, f.kind, v)
    ensures var rs := ManyRecords(s, f, vs);
      |rs| == |vs| && forall i | 0 <= i < |vs| :: ValueConforms(s, f.kind, true, vs[i], rs[i].payload)
    decreases vs, 1, 0
  {
    hide ValueRecord, ValueOk, ValueConforms, WellFormed;
    if vs != [] {
      ValueGood(s, f.id, f.kind, true, vs[0]);
      ManyGood(s, f, vs[1..]);
    }
  }

  lemma {:induction false} DictGood(s: Schema, f: Field, es: seq<Entry>)
    requires WellFormed(s) && forall e | e in es :: Utf8.Faithful(e.key) && ValueOk(s, f.kind, e.val)
    ensures var rs := DictRecords(s, f, es);
      |rs| == |es| && forall i | 0 <= i < |es| :: EntryConforms(s, f.kind, es[i], rs[i].payload)
    decreases es, 1, 0
  {
    hide ValueRecord, ValueOk, EntryConforms, WellFormed, Utf8.Faithful, Print, KeyRecord;
    if es != [] {
      EntryGood(s, f.kind, es[0]);
      DictGood(s, f, es[1..]);
    }
  }

  lemma {:induction false} EntryGood(s: Schema, k: Kind, e: Entry)
    requires WellFormed(s) && Utf8.Faithful(e.key) && ValueOk(s, k, e.val)
    ensures EntryConforms(s, k, e, Delimited(Print(KeyRecord(e.key)) + Print(ValueRecord(s, 2, k, false, e.val))))
    decreases e, 0
  {
    hide ValueRecord, ValueOk, ValueConforms, WellFormed, Utf8.Faithful, Print, Carries;
    ScalarConforms(String, Text(e.key));
    ValueGood(s, 2, k, false, e.val);
    RoundTrip.ValueWire(s, k, e.val);
    var a, b := KeyRecord(e.key), ValueRecord(s, 2, k, false, e.val);
    RoundTrip.FirstRecord(a, [b]);
    RoundTrip.SinglePrint(b);
    assert [a] + [b] == [Record(1, a.payload), Record(2, b.payload)];
  }

  lemma {:induction false} ValueGood(s: Schema, id: nat, k: Kind, groups: bool, v: Value)
    requires WellFormed(s) && ValueOk(s, k, v)
    ensures ValueConforms(s, k, groups, v, ValueRecord(s, id, k, groups, v).payload)
    decreases v, 0, 0
  {
    hide ScalarOk, ScalarPayload, Carries, Records, Conforms, PrintAll, WellFormed;
    match k
    case Basic(sc) => ScalarConforms(sc, v);
    case Ref(t) => MessageConforms(s, t, v.m);
  }

  // ---- there is only one encoding ----

  lemma {:induction false} LowFirstUnique(a: bytes, b: bytes)
    requires |a| == |b| && LowFirst(a) == LowFirst(b)
    ensures a == b
  {
    if a != [] {
      DivUnique(LowFirst(a), 0x100, LowFirst(a[1..]), a[0]);
      DivUnique(LowFirst(b), 0x100, LowFirst(b[1..]), b[0]);
      LowFirstUnique(a[1..], b[1..]);
      assert a == [a[0]] + a[1..] && b == [b[0]] + b[1..];
    }
  }

  lemma CarriesUnique(sc: Scalar, v: Value, p: Payload, q: Payload)
    requires Carries(sc, v, p) && Carries(sc, v, q)
    ensures p == q
  {
    hide LowFirst, Utf8.Layout, Utf8.CodePoints;
    match sc
    case Fixed32Type => LowFirstUnique(p.b, q.b);
    case Sfixed32 => LowFirstUnique(p.b, q.b);
    case Fixed64Type => LowFirstUnique(p.b, q.b);
    case Sfixed64 => LowFirstUnique(p.b, q.b);
    case String => Utf8.LayoutUnique(Utf8.CodePoints(v.units, 0), p.b, q.b);
    case _ =>
  }

  lemma {:induction false} ElementsUnique(sc: Scalar, vs: seq<Value>, b: bytes, c: bytes)
    requires Elements(sc, vs, b) && Elements(sc, vs, c)
    ensures b == c
    decreases |vs|
  {
    hide Carries, PayloadBytes;
    if vs != [] {
      var p, rest :| Carries(sc, vs[0], p) && b == PayloadBytes(p) + rest && Elements(sc, vs[1..], rest);
      var q, more :| Carries(sc, vs[0], q) && c == PayloadBytes(q) + more && Elements(sc, vs[1..], more);
      CarriesUnique(sc, vs[0], p, q);
      ElementsUnique(sc, vs[1..], rest, more);
    }
  }

  lemma OfTail(rs: seq<Record>, qs: seq<Record>, id: nat)
    requires rs != [] && qs != [] && rs[0].id == qs[0].id && Of(rs, id) == Of(qs, id)
    ensures Of(rs[1..], id) == Of(qs[1..], id)
    ensures id == rs[0].id ==> rs[0].payload == qs[0].payload
  {
    if id == rs[0].id {
      assert Of(rs, id)[0] == rs[0].payload && Of(qs, id)[0] == qs[0].payload;
      assert Of(rs[1..], id) == Of(rs, id)[1..] && Of(qs[1..], id) == Of(qs, id)[1..];
    } else {
      assert [] + Of(rs[1..], id) == Of(rs[1..], id) && [] + Of(qs[1..], id) == Of(qs[1..], id);
    }
  }

  lemma {:induction false} SameOf(rs: seq<Record>, qs: seq<Record>)
    requires forall i, j | 0 <= i < j < |rs| :: rs[i].id <= rs[j].id
    requires forall i, j | 0 <= i < j < |qs| :: qs[i].id <= qs[j].id
    requires forall id: nat :: Of(rs, id) == Of(qs, id)
    ensures rs == qs
  {
    hide Of;
    if rs == [] {
      if qs != [] {
        SameFirst(qs, rs);
      }
    } else {
      SameFirst(rs, qs);
      OfTail(rs, qs, rs[0].id);
      forall id: nat
        ensures Of(rs[1..], id) == Of(qs[1..], id)
      {
        OfTail(rs, qs, id);
      }
      SameOf(rs[1..], qs[1..]);
      assert rs == [rs[0]] + rs[1..] && qs == [qs[0]] + qs[1..];
    }
  }

  lemma OfFirst(rs: seq<Record>)
    requires rs != []
    ensures Of(rs, rs[0].id) != []
  {
  }

  lemma SameFirst(rs: seq<Record>, qs: seq<Record>)
    requires forall i, j | 0 <= i < j < |rs| :: rs[i].id <= rs[j].id
    requires forall i, j | 0 <= i < j < |qs| :: qs[i].id <= qs[j].id
    requires rs != [] && forall id: nat :: Of(rs, id) == Of(qs, id)
    ensures qs != [] && rs[0].id == qs[0].id
  {
    hide Of;
    OfFirst(rs);
    if qs == [] || rs[0].id < qs[0].id {
      OfNone(qs, rs[0].id);
    } else if qs[0].id < rs[0].id {
      OfFirst(qs);
      OfNone(rs, qs[0].id);
    }
  }

  lemma {:induction false} RecordsUnique(s: Schema, t: nat, m: Message, rs: seq<Record>, qs: seq<Record>)
    requires Conforms(s, t, m, rs) && Conforms(s, t, m, qs)
    ensures rs == qs
    decreases m, 3
  {
    hide SlotConforms, Of;
    var fs := TypeAt(s, t).fields;
    forall id: nat
      ensures Of(rs, id) == Of(qs, id)
    {
      if f :| f in fs && f.id == id && id in m.fields {
        SlotUnique(s, f, m.fields[id], Of(rs, id), Of(qs, id));
      } else {
        OfNone(rs, id);
        OfNone(qs, id);
      }
    }
    SameOf(rs, qs);
  }

  lemma {:induction false} SlotUnique(s: Schema, f: Field, slot: Slot, ps: seq<Payload>, qs: seq<Payload>)
    requires SlotConforms(s, f, slot, ps) && SlotConforms(s, f, slot, qs)
    ensures ps == qs
    decreases slot, 1
  {
    hide ValueConforms, EntryConforms, Elements;
    match slot
    case One(v) => ValueUnique(s, f.kind, true, v, ps[0], qs[0]);
    case Many(vs) =>
      if f.shape == Repeated(true) && f.kind.Basic? && WireNumber(f.kind.scalar) != 2 {
        if vs != [] {
          ElementsUnique(f.kind.scalar, vs, ps[0].b, qs[0].b);
        }
      } else {
        forall i | 0 <= i < |vs|
          ensures ps[i] == qs[i]
        {
          ValueUnique(s, f.kind, true, vs[i], ps[i], qs[i]);
        }
      }
    case Dict(es) =>
      forall i | 0 <= i < |es|
        ensures ps[i] == qs[i]
      {
        EntryUnique(s, f.kind, es[i], ps[i], qs[i]);
      }
  }

  lemma {:induction false} EntryUnique(s: Schema, k: Kind, e: Entry, p: Payload, q: Payload)
    requires EntryConforms(s, k, e, p) && EntryConforms(s, k, e, q)
    ensures p == q
    decreases e, 1
  {
    hide ValueConforms, Carries, PrintAll;
    var key, val :| Carries(String, Text(e.key), key) && ValueConforms(s, k, false, e.val, val)
                    && p.b == PrintAll([Record(1, key), Record(2, val)]);
    var key', val' :| Carries(String, Text(e.key), key') && ValueConforms(s, k, false, e.val, val')
                      && q.b == PrintAll([Record(1, key'), Record(2, val')]);
    CarriesUnique(String, Text(e.key), key, key');
    ValueUnique(s, k, false, e.val, val, val');
  }

  lemma {:induction false} ValueUnique(s: Schema, k: Kind, groups: bool, v: Value, p: Payload, q: Payload)
    requires ValueConforms(s, k, groups, v, p) && ValueConforms(s, k, groups, v, q)
    ensures p == q
    decreases v, 0
  {
    hide Conforms, Carries, PrintAll;
    match k
    case Basic(sc) => CarriesUnique(sc, v, p, q);
    case Ref(t) =>
      if groups && TypeAt(s, t).group {
        RecordsUnique(s, t, v.m, p.records, q.records);
      } else {
        var rs :| p.b == PrintAll(rs) && Conforms(s, t, v.m, rs);
        var qs :| q.b == PrintAll(qs) && Conforms(s, t, v.m, qs);
        RecordsUnique(s, t, v.m, rs, qs);
      }
  }

  /** What the encoder of a valid message writes is its encoding, and nothing else is. */
  lemma EncodeWritten(s: Schema, t: nat, m: Message, b: bytes)
    requires WellFormed(s) && Valid(s, t, m)
    ensures Written(s, t, m, b) <==> b == Encode(s, t, m)
  {
    hide Conforms;
    MessageConforms(s, t, m);
    if rs :| b == PrintAll(rs) && Conforms(s, t, m, rs) {
      RecordsUnique(s, t, m, rs, Records(s, t, m));
    }
  }
}
