/** The generated encoder of a message type, driving a writer; and the whole trip through writer,
    buffer and reader. */
module Encoders {
  import opened Wrappers
  import opened Bits
  import opened Varints
  import opened Reading
  import opened Wire
  import opened Schemas
  import opened Encoding
  import opened Longs
  import opened Writers
  import opened Pools
  import Decoding
  import Readers
  import Conformance
  import RoundTrip
  import Utf8

  /** The current level of a writer grew by `b`; the levels below are as they were. */
  ghost predicate Grew(before: seq<bytes>, after: seq<bytes>, b: bytes) {
    |before| > 0 && after == [before[0] + b] + before[1..]
  }

  lemma GrewTwice(c0: seq<bytes>, c1: seq<bytes>, c2: seq<bytes>, a: bytes, b: bytes)
    requires Grew(c0, c1, a) && Grew(c1, c2, b)
    ensures Grew(c0, c2, a + b)
  {
    assert c0[0] + a + b == c0[0] + (a + b);
  }

  lemma GrewNothing(c: seq<bytes>)
    requires |c| > 0
    ensures Grew(c, c, [])
  {
    assert c[0] + [] == c[0];
  }

  /** `uint32((id << 3 | wireType) >>> 0)`. */
  method WriteTag(id: nat, wireType: nat, w: Writer)
    requires w.Valid() && id < MAX_ID && wireType < 8
    modifies w, w.ops
    ensures w.Valid() && fresh(w.ops - old(w.ops))
    ensures Grew(old(w.Contents()), w.Contents(), Tag(id, wireType))
  {
    hide Stack, Or, Tag, Separate, Chain, Level;
    TagBits(id, wireType);
    w.Uint32(Or(id * 8, wireType));
  }

  lemma TagBits(id: nat, wireType: nat)
    requires id < MAX_ID && wireType < 8
    ensures Or(id * 8, wireType) == id * 8 + wireType < TWO_32
    ensures Tag(id, wireType) == Varint((id * 8 + wireType) % TWO_32)
  {
    hide Or, Varint;
    assert Pow2(3) == 8;
    OrDisjoint(wireType, id, 3);
    OrCommutes(id * 8, wireType);
    SmallMod(id * 8 + wireType, TWO_32);
  }

  lemma ScalarWire(sc: Scalar, v: Value)
    requires ScalarOk(sc, v)
    ensures WireType(ScalarPayload(sc, v)) == BasicWire(sc)
  {
    hide Varint, Utf8.Faithful, Fixed32;
  }

  /** `w[type](value)` for a basic type. */
  method WriteScalar(sc: Scalar, v: Value, w: Writer)
    requires w.Valid() && ScalarOk(sc, v)
    modifies w, w.ops
    ensures w.Valid() && fresh(w.ops - old(w.ops))
    ensures Grew(old(w.Contents()), w.Contents(), ScalarBytes(sc, v))
  {
    hide Stack, Varint, Utf8.Faithful, Fixed32, Delimit, ZigZag, ZigZagLong, Utf8.Encode, Separate, Chain, Level;
    match sc
    case Int32 => w.Int32(v.n);
    case Uint32 => w.Uint32(v.n);
    case Sint32 => w.Sint32(v.n);
    case Fixed32Type => w.WriteFixed(v.n);
    case Sfixed32 => w.WriteFixed(v.n);
    case Int64 => w.Uint64(v.l);
    case Uint64 => w.Uint64(v.l);
    case Sint64 => w.Sint64(v.l);
    case Fixed64Type => w.Fixed64(v.l);
    case Sfixed64 => w.Fixed64(v.l);
    case Double => w.Raw(v.raw);
    case Float => w.Raw(v.raw);
    case Bool => w.Bool(v.b);
    case String => w.String(v.units);
    case Bytes => w.WriteDelimited(v.octets);
  }

  /** The generated encoder of message type `t`. */
  method EncodeMessage(s: Schema, t: nat, m: Message, w: Writer)
    requires w.Valid() && WellFormed(s) && Valid(s, t, m)
    modifies w, w.ops
    ensures w.Valid() && fresh(w.ops - old(w.ops))
    ensures Grew(old(w.Contents()), w.Contents(), Encode(s, t, m))
    ensures Conformance.Written(s, t, m, Encode(s, t, m))
    decreases m, 3, 0
  {
    hide Conformance.Written, Stack, Separate, Chain, Level, Grew, PrintAll, SlotRecords, FieldRecords, SlotOk, ById;
    var fs := ById(s[t].fields);
    ByIdSame(s[t].fields);
    ghost var start := w.Contents();
    ghost var done: bytes := [];
    NonEmpty(w);
    GrewNothing(start);
    assert fs[0..] == fs;
    var i := 0;
    while i < |fs|
      invariant i <= |fs|
      invariant w.Valid() && fresh(w.ops - old(w.ops))
      invariant Grew(start, w.Contents(), done)
      invariant done + PrintAll(FieldRecords(s, fs[i..], m)) == PrintAll(FieldRecords(s, fs, m))
    {
      var f := fs[i];
      assert f in fs;
      ghost var mid := w.Contents();
      FieldsStep(s, fs, i, m);
      if f.id in m.fields {
        EncodeSlot(s, f, m.fields[f.id], w);
        ghost var b := PrintAll(SlotRecords(s, f, m.fields[f.id]));
        GrewTwice(start, mid, w.Contents(), done, b);
        Regroup(done, b, PrintAll(FieldRecords(s, fs[i + 1..], m)));
        done := done + b;
      }
      i := i + 1;
    }
    FieldsEnd(s, fs, i, m);
    assert done + [] == done;
    Conformance.EncodeWritten(s, t, m, Encode(s, t, m));
  }

  lemma Regroup(a: bytes, b: bytes, c: bytes)
    ensures a + (b + c) == (a + b) + c
  {
  }

  lemma NonEmpty(w: Writer)
    requires w.Valid()
    ensures |w.Contents()| > 0
  {
  }

  lemma FieldsStep(s: Schema, fs: seq<Field>, i: nat, m: Message)
    requires i < |fs|
    ensures PrintAll(FieldRecords(s, fs[i..], m))
         == (if fs[i].id in m.fields then PrintAll(SlotRecords(s, fs[i], m.fields[fs[i].id])) else []) + PrintAll(FieldRecords(s, fs[i + 1..], m))
  {
    hide PrintAll, SlotRecords;
    assert fs[i..][0] == fs[i] && fs[i..][1..] == fs[i + 1..];
    var first := if fs[i].id in m.fields then SlotRecords(s, fs[i], m.fields[fs[i].id]) else [];
    PrintAllConcat(first, FieldRecords(s, fs[i + 1..], m));
    RoundTrip.PrintNone();
  }

  lemma FieldsEnd(s: Schema, fs: seq<Field>, i: nat, m: Message)
    requires i == |fs|
    ensures PrintAll(FieldRecords(s, fs[i..], m)) == []
  {
  }

  method EncodeSlot(s: Schema, f: Field, slot: Slot, w: Writer)
    requires w.Valid() && WellFormed(s) && f.id < MAX_ID && SlotOk(s, f, slot)
    modifies w, w.ops
    ensures w.Valid() && fresh(w.ops - old(w.ops))
    ensures Grew(old(w.Contents()), w.Contents(), PrintAll(SlotRecords(s, f, slot)))
    decreases slot, 1, 0
  {
    hide Stack, Separate, Chain, Level, Grew, Print, ValueRecord, ValueOk, ManyRecords, DictRecords;
    match slot
    case One(v) =>
      RoundTrip.SinglePrint(ValueRecord(s, f.id, f.kind, true, v));
      EncodeValue(s, f.id, f.kind, true, v, w);
    case Many(vs) =>
      if f.shape.packed && Packable(f.kind) {
        if |vs| != 0 {
          ElementsOk(s, f.kind, vs);
          EncodePacked(f.id, f.kind.scalar, vs, w);
          RoundTrip.SinglePrint(Record(f.id, Delimited(PackedBytes(f.kind.scalar, vs))));
        } else {
          NonEmpty(w);
          GrewNothing(w.Contents());
        }
      } else {
        EncodeMany(s, f, vs, w);
      }
    case Dict(es) => EncodeDict(s, f, es, w);
  }

  /** A packed array: one tag, then the values behind their length. */
  method EncodePacked(id: nat, sc: Scalar, vs: seq<Value>, w: Writer)
    requires w.Valid() && id < MAX_ID && forall v | v in vs :: ScalarOk(sc, v)
    modifies w, w.ops
    ensures w.Valid() && fresh(w.ops - old(w.ops))
    ensures Grew(old(w.Contents()), w.Contents(), Print(Record(id, Delimited(PackedBytes(sc, vs)))))
  {
    hide Stack, Separate, Chain, Level, Grew, ScalarBytes, ScalarOk, PackedBytes, Tag, Print;
    ghost var start := w.Contents();
    ghost var tagged := Open(id, w);
    ghost var forked := w.Contents();
    ghost var done: bytes := [];
    var i := 0;
    while i < |vs|
      invariant i <= |vs|
      invariant w.Valid() && fresh(w.ops - old(w.ops))
      invariant Grew(forked, w.Contents(), done)
      invariant done + PackedBytes(sc, vs[i..]) == PackedBytes(sc, vs)
    {
      ghost var mid := w.Contents();
      assert vs[i] in vs;
      WriteScalar(sc, vs[i], w);
      ghost var b := ScalarBytes(sc, vs[i]);
      GrewTwice(forked, mid, w.Contents(), done, b);
      PackedStep(sc, vs, i);
      assert done + (b + PackedBytes(sc, vs[i + 1..])) == (done + b) + PackedBytes(sc, vs[i + 1..]);
      done := done + b;
      i := i + 1;
    }
    PackedEnd(sc, vs, i);
    assert done + [] == done;
    Close(id, w, start, tagged, done);
  }

  lemma PackedStep(sc: Scalar, vs: seq<Value>, i: nat)
    requires i < |vs|
    ensures PackedBytes(sc, vs[i..]) == ScalarBytes(sc, vs[i]) + PackedBytes(sc, vs[i + 1..])
  {
    hide ScalarBytes;
    assert vs[i..][0] == vs[i] && vs[i..][1..] == vs[i + 1..];
  }

  lemma PackedEnd(sc: Scalar, vs: seq<Value>, i: nat)
    requires i == |vs|
    ensures PackedBytes(sc, vs[i..]) == []
  {
  }

  /** Closing a level that grew by `b` makes the level below grow by `b` behind its length. */
  lemma LdelimGrew(outer: seq<bytes>, forked: seq<bytes>, c: seq<bytes>, b: bytes)
    requires |outer| > 0 && forked == [[]] + outer && Grew(forked, c, b)
    ensures |c| > 1 && Grew(outer, [c[1] + Delimit(c[0])] + c[2..], Delimit(b))
  {
    hide Delimit;
    assert forked[0] + b == b && forked[1..] == outer;
    assert c[0] == b && c[1..] == outer && c[2..] == outer[1..];
  }

  /** `w.uint32(tag).fork()`. */
  method Open(id: nat, w: Writer) returns (ghost tagged: seq<bytes>)
    requires w.Valid() && id < MAX_ID
    modifies w, w.ops
    ensures w.Valid() && fresh(w.ops - old(w.ops))
    ensures |tagged| > 0 && Grew(old(w.Contents()), tagged, Tag(id, 2)) && w.Contents() == [[]] + tagged
    ensures Grew(w.Contents(), w.Contents(), [])
  {
    hide Stack, Separate, Chain, Level, Tag;
    WriteTag(id, 2, w);
    tagged := w.Contents();
    w.Fork();
    GrewNothing(w.Contents());
  }

  /** `w.ldelim()`, with all that was written since the tag. */
  method Close(id: nat, w: Writer, ghost start: seq<bytes>, ghost tagged: seq<bytes>, ghost b: bytes)
    requires w.Valid() && |tagged| > 0 && Grew(start, tagged, Tag(id, 2)) && Grew([[]] + tagged, w.Contents(), b)
    modifies w, w.ops
    ensures w.Valid() && fresh(w.ops - old(w.ops))
    ensures Grew(start, w.Contents(), Print(Record(id, Delimited(b))))
  {
    hide Stack, Separate, Chain, Level, Tag, Delimit, Grew;
    LdelimGrew(tagged, [[]] + tagged, w.Contents(), b);
    w.Ldelim();
    GrewTwice(start, tagged, w.Contents(), Tag(id, 2), Delimit(b));
  }

  method EncodeMany(s: Schema, f: Field, vs: seq<Value>, w: Writer)
    requires w.Valid() && WellFormed(s) && f.id < MAX_ID && forall v | v in vs :: ValueOk(s, f.kind, v)
    modifies w, w.ops
    ensures w.Valid() && fresh(w.ops - old(w.ops))
    ensures Grew(old(w.Contents()), w.Contents(), PrintAll(ManyRecords(s, f, vs)))
    decreases vs, 1, 0
  {
    hide Stack, Separate, Chain, Level, Grew, Print, ValueRecord, ValueOk, ManyRecords, PrintAll;
    ghost var start := w.Contents();
    ghost var done: bytes := [];
    NonEmpty(w);
    GrewNothing(start);
    assert vs[0..] == vs;
    var i := 0;
    while i < |vs|
      invariant i <= |vs|
      invariant w.Valid() && fresh(w.ops - old(w.ops))
      invariant Grew(start, w.Contents(), done)
      invariant done + PrintAll(ManyRecords(s, f, vs[i..])) == PrintAll(ManyRecords(s, f, vs))
    {
      ghost var mid := w.Contents();
      assert vs[i] in vs;
      EncodeValue(s, f.id, f.kind, true, vs[i], w);
      ghost var b := Print(ValueRecord(s, f.id, f.kind, true, vs[i]));
      GrewTwice(start, mid, w.Contents(), done, b);
      ManyStep(s, f, vs, i);
      assert done + (b + PrintAll(ManyRecords(s, f, vs[i + 1..]))) == (done + b) + PrintAll(ManyRecords(s, f, vs[i + 1..]));
      done := done + b;
      i := i + 1;
    }
    ManyEnd(s, f, vs, i);
    assert done + [] == done;
  }

  lemma ManyStep(s: Schema, f: Field, vs: seq<Value>, i: nat)
    requires i < |vs|
    ensures PrintAll(ManyRecords(s, f, vs[i..])) == Print(ValueRecord(s, f.id, f.kind, true, vs[i])) + PrintAll(ManyRecords(s, f, vs[i + 1..]))
  {
    hide ValueRecord, Print;
    assert vs[i..][0] == vs[i] && vs[i..][1..] == vs[i + 1..];
    RoundTrip.FirstRecord(ValueRecord(s, f.id, f.kind, true, vs[i]), ManyRecords(s, f, vs[i + 1..]));
  }

  lemma ManyEnd(s: Schema, f: Field, vs: seq<Value>, i: nat)
    requires i == |vs|
    ensures PrintAll(ManyRecords(s, f, vs[i..])) == []
  {
  }

  method EncodeDict(s: Schema, f: Field, es: seq<Entry>, w: Writer)
    requires w.Valid() && WellFormed(s) && f.id < MAX_ID
    requires forall e | e in es :: Utf8.Faithful(e.key) && ValueOk(s, f.kind, e.val)
    modifies w, w.ops
    ensures w.Valid() && fresh(w.ops - old(w.ops))
    ensures Grew(old(w.Contents()), w.Contents(), PrintAll(DictRecords(s, f, es)))
    decreases es, 1, 0
  {
    hide Stack, Separate, Chain, Level, Grew, Print, DictRecords, PrintAll, ValueOk, RoundTrip.EntryBytes, Utf8.Faithful;
    ghost var start := w.Contents();
    ghost var done: bytes := [];
    NonEmpty(w);
    GrewNothing(start);
    assert es[0..] == es;
    var i := 0;
    while i < |es|
      invariant i <= |es|
      invariant w.Valid() && fresh(w.ops - old(w.ops))
      invariant Grew(start, w.Contents(), done)
      invariant done + PrintAll(DictRecords(s, f, es[i..])) == PrintAll(DictRecords(s, f, es))
    {
      ghost var mid := w.Contents();
      assert es[i] in es;
      EncodeEntry(s, f.id, f.kind, es[i], w);
      ghost var b := Print(Record(f.id, Delimited(RoundTrip.EntryBytes(s, f.kind, es[i]))));
      GrewTwice(start, mid, w.Contents(), done, b);
      DictStep(s, f, es, i);
      assert done + (b + PrintAll(DictRecords(s, f, es[i + 1..]))) == (done + b) + PrintAll(DictRecords(s, f, es[i + 1..]));
      done := done + b;
      i := i + 1;
    }
    DictEnd(s, f, es, i);
    assert done + [] == done;
  }

  lemma DictStep(s: Schema, f: Field, es: seq<Entry>, i: nat)
    requires i < |es|
    ensures PrintAll(DictRecords(s, f, es[i..]))
         == Print(Record(f.id, Delimited(RoundTrip.EntryBytes(s, f.kind, es[i])))) + PrintAll(DictRecords(s, f, es[i + 1..]))
  {
    hide ValueRecord, KeyRecord, Print;
    assert es[i..][0] == es[i] && es[i..][1..] == es[i + 1..];
    RoundTrip.FirstRecord(Record(f.id, Delimited(RoundTrip.EntryBytes(s, f.kind, es[i]))), DictRecords(s, f, es[i + 1..]));
  }

  lemma DictEnd(s: Schema, f: Field, es: seq<Entry>, i: nat)
    requires i == |es|
    ensures PrintAll(DictRecords(s, f, es[i..])) == []
  {
  }

  /** One map entry: key and value as fields 1 and 2 of a nested record. */
  method EncodeEntry(s: Schema, id: nat, k: Kind, e: Entry, w: Writer)
    requires w.Valid() && WellFormed(s) && id < MAX_ID && ValueOk(s, k, e.val)
    modifies w, w.ops
    ensures w.Valid() && fresh(w.ops - old(w.ops))
    ensures Grew(old(w.Contents()), w.Contents(), Print(Record(id, Delimited(RoundTrip.EntryBytes(s, k, e)))))
    decreases e, 1
  {
    hide Stack, Separate, Chain, Level, Grew, RoundTrip.EntryBytes, ValueOk, Tag, Print;
    ghost var start := w.Contents();
    ghost var tagged := Open(id, w);
    EncodePair(s, k, e, w);
    Close(id, w, start, tagged, RoundTrip.EntryBytes(s, k, e));
  }

  /** The two fields of an entry. */
  method EncodePair(s: Schema, k: Kind, e: Entry, w: Writer)
    requires w.Valid() && WellFormed(s) && ValueOk(s, k, e.val)
    modifies w, w.ops
    ensures w.Valid() && fresh(w.ops - old(w.ops))
    ensures Grew(old(w.Contents()), w.Contents(), RoundTrip.EntryBytes(s, k, e))
    decreases e, 0
  {
    hide Stack, Separate, Chain, Level, Grew, ValueRecord, ValueOk, Tag, Delimit, Utf8.Encode, Print;
    ghost var start := w.Contents();
    WriteTag(1, 2, w);
    ghost var c1 := w.Contents();
    w.String(e.key);
    ghost var c2 := w.Contents();
    NonEmptyGrew(start, c1, Tag(1, 2));
    StringGrew(c1, c2, e.key);
    GrewTwice(start, c1, c2, Tag(1, 2), Delimit(Utf8.Encode(e.key)));
    PrintKey(e.key);
    EncodeValue(s, 2, k, false, e.val, w);
    GrewTwice(start, c2, w.Contents(), Print(KeyRecord(e.key)), Print(ValueRecord(s, 2, k, false, e.val)));
  }

  lemma NonEmptyGrew(c: seq<bytes>, d: seq<bytes>, b: bytes)
    requires Grew(c, d, b)
    ensures |d| > 0
  {
  }

  lemma PrintKey(key: Utf8.Units)
    ensures Print(KeyRecord(key)) == Tag(1, 2) + Delimit(Utf8.Encode(key))
  {
    hide Delimit, Utf8.Encode, Tag;
  }

  lemma ElementsOk(s: Schema, k: Kind, vs: seq<Value>)
    requires Packable(k) && forall v | v in vs :: ValueOk(s, k, v)
    ensures forall v | v in vs :: ScalarOk(k.scalar, v)
  {
  }

  lemma StringGrew(c: seq<bytes>, d: seq<bytes>, key: Utf8.Units)
    requires |c| > 0 && d == [c[0] + Delimit(Utf8.Encode(key))] + c[1..]
    ensures Grew(c, d, Delimit(Utf8.Encode(key)))
  {
  }

  /** A value behind its tag. */
  method EncodeValue(s: Schema, id: nat, k: Kind, groups: bool, v: Value, w: Writer)
    requires w.Valid() && WellFormed(s) && id < MAX_ID && ValueOk(s, k, v)
    modifies w, w.ops
    ensures w.Valid() && fresh(w.ops - old(w.ops))
    ensures Grew(old(w.Contents()), w.Contents(), Print(ValueRecord(s, id, k, groups, v)))
    decreases v, 0, 0
  {
    hide Stack, Separate, Chain, Level, Grew, Tag, Delimit, Records, ScalarPayload, ScalarBytes, PrintAll, ScalarOk;
    ghost var start := w.Contents();
    match k
    case Basic(sc) =>
      WriteTag(id, BasicWire(sc), w);
      ghost var tagged := w.Contents();
      WriteScalar(sc, v, w);
      ScalarWire(sc, v);
      RoundTrip.ScalarBody(sc, v, id);
      GrewTwice(start, tagged, w.Contents(), Tag(id, BasicWire(sc)), ScalarBytes(sc, v));
    case Ref(t) =>
      ghost var b := Encode(s, t, v.m);
      if groups && TypeAt(s, t).group {
        WriteTag(id, 3, w);
        ghost var tagged := w.Contents();
        EncodeMessage(s, t, v.m, w);
        ghost var c := w.Contents();
        WriteTag(id, 4, w);
        GrewTwice(tagged, c, w.Contents(), b, Tag(id, 4));
        GrewTwice(start, tagged, w.Contents(), Tag(id, 3), b + Tag(id, 4));
      } else {
        ghost var tagged := Open(id, w);
        EncodeMessage(s, t, v.m, w);
        Close(id, w, start, tagged, b);
      }
  }

  /** Encoding, finishing into a pooled buffer and decoding that buffer again: the message comes
      back as the decoder's schema sees it, the reader stands at the end of the buffer, and buffers
      finished earlier are untouched. */
  method Transfer(d: Schema, s: Schema, t: nat, m: Message, pool: Pool) returns (buf: Slice, r: Readers.Result<Message>, end: nat)
    requires Compatible(d, s) && Valid(s, t, m) && pool.Valid()
    requires |Encode(s, t, m)| < TWO_32
    modifies pool, if pool.slab == null then {} else {pool.slab}
    ensures pool.Valid() && pool.given == old(pool.given) + [buf]
    ensures buf.Inside() && buf.Bytes() == Encode(s, t, m) && Conformance.Written(s, t, m, buf.Bytes())
    ensures forall a | a in old(pool.given) :: a.Inside() && a.Bytes() == old(a.Bytes())
    ensures r == Readers.Ok(Kept(d, t, m)) && end == buf.size
    ensures d == s ==> (r == Readers.Ok(m) <==> RoundTrip.Tidy(s, t, m))
  {
    hide Conformance.Written, Separate, Chain, Level, Stack, Grew, Encode, Pool.Valid, Decoding.DecodeLoop, Kept;
    var w := new Writer();
    ghost var start := w.Contents();
    EncodeMessage(s, t, m, w);
    GrewFirst(start, w.Contents(), Encode(s, t, m));
    buf := w.Finish(pool);
    var reader := new Readers.Reader(buf.slab[buf.start..buf.start + buf.size]);
    RoundTrip.ForwardCompatible(d, s, t, m);
    r := reader.Decode(d, t, None);
    end := reader.pos;
    RoundTrip.TidyKept(s, t, m);
  }

  lemma GrewFirst(c: seq<bytes>, d: seq<bytes>, b: bytes)
    requires c == [[]] && Grew(c, d, b)
    ensures d[0] == b
  {
    assert c[0] + b == b;
  }
}
