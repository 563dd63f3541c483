/** Message types and message values, as the code generators of the encoder and the decoder
    see them. */
module Schemas {
  import opened Wrappers
  import opened Bits
  import opened Varints
  import opened Reading
  import opened Wire
  import Longs
  import Utf8

  datatype Scalar =
    | Double | Float | Int32 | Uint32 | Sint32 | Fixed32Type | Sfixed32 | Int64 | Uint64 | Sint64
    | Fixed64Type | Sfixed64 | Bool | String | Bytes

  /** A field holds a basic type, or refers to a message type by its index. */
  datatype Kind = Basic(scalar: Scalar) | Ref(index: nat)

  /** Map keys are strings. */
  datatype Shape = Optional | Required | Repeated(packed: bool) | Map

  datatype Field = Field(id: nat, kind: Kind, shape: Shape)

  datatype MessageType = MessageType(fields: seq<Field>, group: bool)

  type Schema = seq<MessageType>

  datatype Value =
    | Num(n: int)
    | Flag(b: bool)
    | Big(l: Long)
    | Raw(raw: bytes)
    | Octets(octets: bytes)
    | Text(units: Utf8.Units)
    | Sub(m: Message)

  datatype Entry = Entry(key: Utf8.Units, val: Value)

  /** An own property of a message: one value, an array, or an object used as a map, with its
      entries in the order of `Object.keys`. */
  datatype Slot = One(v: Value) | Many(vs: seq<Value>) | Dict(es: seq<Entry>)

  datatype Message = Message(fields: map<nat, Slot>)

  const EMPTY: Message := Message(map[])

  /** The code units of `__proto__`. */
  const PROTO: Utf8.Units := [95, 95, 112, 114, 111, 116, 111, 95, 95]

  function TypeAt(s: Schema, t: nat): MessageType {
    if t < |s| then s[t] else MessageType([], false)
  }

  /** The case of the decoder's `switch` that an id selects. */
  function Find(fs: seq<Field>, id: nat): (f: Option<Field>)
    ensures f.Some? ==> f.value in fs && f.value.id == id
    ensures f.None? ==> forall g | g in fs :: g.id != id
  {
    if fs == [] then None else if fs[0].id == id then Some(fs[0]) else Find(fs[1..], id)
  }

  ghost predicate DistinctIds(fs: seq<Field>) {
    forall i, j | 0 <= i < j < |fs| :: fs[i].id != fs[j].id
  }

  ghost predicate WellFormed(s: Schema) {
    forall t | 0 <= t < |s| :: DistinctIds(s[t].fields) && forall f | f in s[t].fields :: f.id < MAX_ID
  }

  /** The table `types.basic`. */
  function BasicWire(s: Scalar): nat {
    match s
    case Double | Fixed64Type | Sfixed64 => 1
    case Float | Fixed32Type | Sfixed32 => 5
    case String | Bytes => 2
    case _ => 0
  }

  /** The keys of the table `types.packed`. */
  predicate Packable(k: Kind) {
    k.Basic? && !k.scalar.String? && !k.scalar.Bytes?
  }

  // ---- validity ----

  ghost predicate ScalarOk(s: Scalar, v: Value) {
    match s
    case Int32 | Sint32 | Sfixed32 => v.Num? && -TWO_31 <= v.n < TWO_31
    case Uint32 | Fixed32Type => v.Num? && 0 <= v.n < TWO_32
    case Int64 | Uint64 | Sint64 | Fixed64Type | Sfixed64 => v.Big?
    case Double => v.Raw? && |v.raw| == 8
    case Float => v.Raw? && |v.raw| == 4
    case Bool => v.Flag?
    case String => v.Text? && Utf8.Faithful(v.units)
    case Bytes => v.Octets?
  }

  ghost predicate Valid(s: Schema, t: nat, m: Message)
    decreases m, 2
  {
    && t < |s|
    && forall f | f in s[t].fields ::
         && (f.shape.Required? ==> f.id in m.fields)
         && (f.id in m.fields ==> SlotOk(s, f, m.fields[f.id]))
  }

  ghost predicate SlotOk(s: Schema, f: Field, slot: Slot)
    decreases slot, 1
  {
    match slot
    case One(v) => (f.shape.Optional? || f.shape.Required?) && ValueOk(s, f.kind, v)
    case Many(vs) => f.shape.Repeated? && forall v | v in vs :: ValueOk(s, f.kind, v)
    case Dict(es) =>
      && f.shape.Map?
      && DistinctKeys(es)
      && forall e | e in es :: Utf8.Faithful(e.key) && ValueOk(s, f.kind, e.val)
  }

  ghost predicate ValueOk(s: Schema, k: Kind, v: Value)
    decreases v, 0
  {
    match k
    case Basic(sc) => ScalarOk(sc, v)
    case Ref(t) => v.Sub? && Valid(s, t, v.m)
  }

  ghost predicate DistinctKeys(es: seq<Entry>) {
    forall i, j | 0 <= i < j < |es| :: es[i].key != es[j].key
  }

  /** A decoder's schema `d` may lack fields of the encoder's schema `s`; those it shares have
      the same kind, and agree on being singular, repeated or a map. */
  ghost predicate Compatible(d: Schema, s: Schema) {
    && WellFormed(d) && WellFormed(s) && |d| == |s|
    && forall t | 0 <= t < |s| :: d[t].group == s[t].group && forall f | f in d[t].fields :: Shared(f, s[t].fields)
  }

  ghost predicate Shared(f: Field, gs: seq<Field>) {
    exists g :: g in gs && g.id == f.id && g.kind == f.kind && Fits(f.shape, g.shape)
  }

  predicate Fits(d: Shape, s: Shape) {
    match d
    case Optional => s.Optional? || s.Required?
    case Required => s.Required?
    case Repeated(_) => s.Repeated?
    case Map => s.Map?
  }

  lemma CompatibleSelf(s: Schema)
    requires WellFormed(s)
    ensures Compatible(s, s)
  {
    forall t, f | 0 <= t < |s| && f in s[t].fields
      ensures Shared(f, s[t].fields)
    {
    }
  }

  // ---- what a decoder keeps ----

  predicate Vacant(slot: Slot) {
    slot == Many([]) || slot == Dict([])
  }

  /** A message as a decoder with schema `d` can see it: at every depth, unknown fields are gone, an
      empty array or map is the same as none, and map entries of key `__proto__` are gone. */
  function Kept(d: Schema, t: nat, m: Message): Message
    decreases m, 2
  {
    Message(map id | id in m.fields && Find(TypeAt(d, t).fields, id).Some? && !Vacant(m.fields[id])
              :: KeptSlot(d, Find(TypeAt(d, t).fields, id).value.kind, m.fields[id]))
  }

  function KeptSlot(d: Schema, k: Kind, slot: Slot): Slot
    decreases slot, 1
  {
    match slot
    case One(v) => One(KeptValue(d, k, v))
    case Many(vs) => Many(KeptAll(d, k, vs))
    case Dict(es) => Dict(KeptEntries(d, k, es))
  }

  function KeptAll(d: Schema, k: Kind, vs: seq<Value>): (r: seq<Value>)
    ensures |r| == |vs|
    decreases vs, 1
  {
    if vs == [] then [] else [KeptValue(d, k, vs[0])] + KeptAll(d, k, vs[1..])
  }

  /** The entry of key `__proto__` is lost. */
  function KeptEntries(d: Schema, k: Kind, es: seq<Entry>): (r: seq<Entry>)
    ensures forall e | e in r :: e.key != PROTO && exists f :: f in es && f.key == e.key
    decreases es, 1
  {
    if es == [] then []
    else if es[0].key == PROTO then KeptEntries(d, k, es[1..])
    else [Entry(es[0].key, KeptValue(d, k, es[0].val))] + KeptEntries(d, k, es[1..])
  }

  function KeptValue(d: Schema, k: Kind, v: Value): Value
    decreases v, 0
  {
    if k.Ref? && v.Sub? then Sub(Kept(d, k.index, v.m)) else v
  }

  // ---- how decoded fields accumulate ----

  /** `ref[k] = v` on an object used as a map: the key `__proto__` is an accessor of plain objects, so
      that assigning to it adds no own property. */
  function Put(es: seq<Entry>, e: Entry): seq<Entry> {
    if e.key == PROTO then es
    else if es == [] then [e]
    else if es[0].key == e.key then [e] + es[1..]
    else [es[0]] + Put(es[1..], e)
  }

  function PutAll(es: seq<Entry>, more: seq<Entry>): seq<Entry>
    decreases |more|
  {
    if more == [] then es else PutAll(Put(es, more[0]), more[1..])
  }

  function Items(m: Message, id: nat): seq<Value> {
    if id in m.fields && m.fields[id].Many? then m.fields[id].vs else []
  }

  function Entries(m: Message, id: nat): seq<Entry> {
    if id in m.fields && m.fields[id].Dict? then m.fields[id].es else []
  }

  function WithOne(m: Message, id: nat, v: Value): Message {
    Message(m.fields[id := One(v)])
  }

  function WithMany(m: Message, id: nat, vs: seq<Value>): Message {
    Message(m.fields[id := Many(Items(m, id) + vs)])
  }

  function WithEntry(m: Message, id: nat, e: Entry): Message {
    Message(m.fields[id := Dict(Put(Entries(m, id), e))])
  }

  /** The slot of a field after another slot for it arrives: a singular field is replaced as a
      whole, an array is appended to, a map is overridden key by key. */
  function Joined(m: Message, id: nat, slot: Slot): Slot {
    match slot
    case One(v) => slot
    case Many(vs) => Many(Items(m, id) + vs)
    case Dict(es) => Dict(PutAll(Entries(m, id), es))
  }

  function Merge(a: Message, b: Message): Message {
    Message(map id | id in a.fields.Keys + b.fields.Keys
              :: if id in b.fields then Joined(a, id, b.fields[id]) else a.fields[id])
  }
}
