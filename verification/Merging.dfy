/** What merging does to each field of a message, entry by entry and in terms of lookups by key. */
module Merging {
  import opened Bits
  import opened Varints
  import opened Reading
  import opened Wrappers
  import opened Schemas
  import opened Encoding
  import opened Decoding
  import RoundTrip
  import Utf8

  type Key = Utf8.Units

  /** The value of the last entry with a key. */
  function Last(es: seq<Entry>, key: Key): Option<Value> {
    if es == [] then None
    else if Last(es[1..], key).Some? then Last(es[1..], key)
    else if es[0].key == key then Some(es[0].val) else None
  }

  function Keys(es: seq<Entry>): (r: seq<Key>)
    ensures |r| == |es| && forall i | 0 <= i < |es| :: r[i] == es[i].key
  {
    if es == [] then [] else [es[0].key] + Keys(es[1..])
  }

  /** `keys` with those of `more` behind them that are new, each once, and without `__proto__`. */
  function WithNew(keys: seq<Key>, more: seq<Key>): seq<Key>
    decreases |more|
  {
    if more == [] then keys
    else WithNew(if more[0] in keys || more[0] == PROTO then keys else keys + [more[0]], more[1..])
  }

  lemma {:induction false} LastNone(es: seq<Entry>, key: Key)
    ensures Last(es, key).Some? <==> key in Keys(es)
  {
    if es != [] {
      LastNone(es[1..], key);
    }
  }

  lemma {:induction false} PutKeys(es: seq<Entry>, e: Entry)
    ensures Keys(Put(es, e)) == if e.key in Keys(es) || e.key == PROTO then Keys(es) else Keys(es) + [e.key]
  {
    if e.key != PROTO && es != [] && es[0].key != e.key {
      PutKeys(es[1..], e);
      assert [es[0].key] + (Keys(es[1..]) + [e.key]) == Keys(es) + [e.key];
    }
  }

  lemma {:induction false} PutLast(es: seq<Entry>, e: Entry, key: Key)
    requires DistinctKeys(es)
    ensures Last(Put(es, e), key) == if key == e.key != PROTO then Some(e.val) else Last(es, key)
  {
    if e.key != PROTO && es != [] {
      LastNone(es[1..], es[0].key);
      if es[0].key == e.key {
        assert ([e] + es[1..])[1..] == es[1..];
      } else {
        PutLast(es[1..], e, key);
        assert Put(es, e)[1..] == Put(es[1..], e);
      }
    }
  }

  lemma {:induction false} KeysDistinct(es: seq<Entry>, e: Entry)
    requires DistinctKeys(es)
    ensures DistinctKeys(Put(es, e))
  {
    PutKeys(es, e);
    var r := Put(es, e);
    forall i, j | 0 <= i < j < |r|
      ensures r[i].key != r[j].key
    {
      assert r[i].key == Keys(r)[i] && r[j].key == Keys(r)[j];
      assert i < |es| && es[i].key == Keys(es)[i] && (j < |es| ==> es[j].key == Keys(es)[j]);
    }
  }

  /** Putting entries into a map one by one: the last value of each key counts, known keys keep their
      places and new ones come behind them. */
  lemma {:induction false} PutAllSays(es: seq<Entry>, more: seq<Entry>, key: Key)
    requires DistinctKeys(es)
    ensures Keys(PutAll(es, more)) == WithNew(Keys(es), Keys(more)) && DistinctKeys(PutAll(es, more))
    ensures Last(PutAll(es, more), key) == if key != PROTO && Last(more, key).Some? then Last(more, key) else Last(es, key)
    decreases |more|
  {
    hide Put, DistinctKeys;
    if more != [] {
      var e := more[0];
      PutKeys(es, e);
      KeysDistinct(es, e);
      PutLast(es, e, key);
      PutAllSays(Put(es, e), more[1..], key);
      assert Keys(more)[1..] == Keys(more[1..]);
    }
  }

  /** The field `id` of a message that was merged from `a` and `b`. */
  ghost predicate Merged(a: Message, b: Message, m: Message, id: nat) {
    && (id in m.fields <==> id in a.fields || id in b.fields)
    && (id in a.fields && id !in b.fields ==> m.fields[id] == a.fields[id])
    && (id in b.fields ==>
          match b.fields[id]
          case One(v) => m.fields[id] == One(v)
          case Many(vs) => m.fields[id] == Many((if id in a.fields && a.fields[id].Many? then a.fields[id].vs else []) + vs)
          case Dict(more) =>
            var es := if id in a.fields && a.fields[id].Dict? then a.fields[id].es else [];
            && m.fields[id].Dict?
            && Keys(m.fields[id].es) == WithNew(Keys(es), Keys(more))
            && forall key: Key | key != PROTO ::
                 Last(m.fields[id].es, key) == if Last(more, key).Some? then Last(more, key) else Last(es, key))
  }

  lemma MergeSays(a: Message, b: Message, id: nat)
    requires id in a.fields && a.fields[id].Dict? ==> DistinctKeys(a.fields[id].es)
    ensures Merged(a, b, Merge(a, b), id)
  {
    hide DistinctKeys, PutAll, WithNew, Keys, Last;
    if id in b.fields && b.fields[id].Dict? {
      var es := Entries(a, id);
      assert DistinctKeys(es) by { NoKeys(); }
      var more := b.fields[id].es;
      PutAllSays(es, more, PROTO);
      forall key: Key | key != PROTO
        ensures Last(PutAll(es, more), key) == if Last(more, key).Some? then Last(more, key) else Last(es, key)
      {
        PutAllSays(es, more, key);
      }
    }
  }

  lemma NoKeys()
    ensures DistinctKeys([])
  {
  }

  /** Two encodings one after the other are decoded to the merged message. */
  lemma ConcatSays(d: Schema, s: Schema, t: nat, a: Message, b: Message, id: nat)
    requires Compatible(d, s) && Valid(s, t, a) && Valid(s, t, b)
    requires |Encode(s, t, a)| < TWO_32 && |Encode(s, t, b)| < TWO_32
    ensures var r := Decode(d, t, Encode(s, t, a) + Encode(s, t, b));
      r.Got? && Merged(Kept(d, t, a), Kept(d, t, b), r.val, id)
  {
    hide Encode, Decode, Merged, Merge, Compatible;
    RoundTrip.ConcatMerges(d, s, t, a, b);
    KeptDistinct(d, s, t, a, id);
    MergeSays(Kept(d, t, a), Kept(d, t, b), id);
  }

  lemma KeptDistinct(d: Schema, s: Schema, t: nat, m: Message, id: nat)
    requires Compatible(d, s) && Valid(s, t, m)
    ensures var k := Kept(d, t, m); id in k.fields && k.fields[id].Dict? ==> DistinctKeys(k.fields[id].es)
  {
    hide KeptSlot, SlotOk, DistinctKeys, WellFormed;
    var k := Kept(d, t, m);
    if id in k.fields {
      var f := Find(TypeAt(d, t).fields, id).value;
      assert Shared(f, s[t].fields);
      var g :| g in s[t].fields && g.id == f.id;
      assert SlotOk(s, g, m.fields[id]);
      KeptSlotDistinct(d, s, g, f.kind, m.fields[id]);
    }
  }

  lemma KeptSlotDistinct(d: Schema, s: Schema, g: Field, k: Kind, slot: Slot)
    requires SlotOk(s, g, slot)
    ensures KeptSlot(d, k, slot).Dict? ==> DistinctKeys(KeptSlot(d, k, slot).es)
  {
    hide KeptAll, KeptEntries, KeptValue, DistinctKeys, ValueOk, Utf8.Faithful;
    if slot.Dict? {
      RoundTrip.KeptKeys(d, k, slot.es);
    }
  }
}
