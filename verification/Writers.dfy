/** The writer: a linked list of scheduled operations with a stack of forked states, kept in step
    with a stack of byte strings. */
module Writers {
  import opened Bits
  import opened Varints
  import opened Reading
  import opened Longs
  import opened Buffers
  import opened Pools
  import opened Ops
  import Utf8

  /** Saved states, innermost first. They are never changed once saved. */
  datatype States = Bottom | Saved(head: Op, tail: Op, len: nat, next: States)

  /** The operations of one level behind its `noop`, as bytes. */
  ghost function Bytes(ops: seq<Op>): bytes {
    if ops == [] then [] else ops[0].out + Bytes(ops[1..])
  }

  lemma {:induction false} BytesConcat(a: seq<Op>, b: seq<Op>)
    ensures Bytes(a + b) == Bytes(a) + Bytes(b)
  {
    if a == [] {
      assert a + b == b;
    } else {
      assert (a + b)[1..] == a[1..] + b;
      BytesConcat(a[1..], b);
    }
  }

  ghost function OpsOf(spines: seq<seq<Op>>): set<Op> {
    if spines == [] then {} else (set o | o in spines[0]) + OpsOf(spines[1..])
  }

  /** No operation is linked in twice. */
  ghost predicate Separate(spines: seq<seq<Op>>) {
    spines == [] ||
    (&& (forall i, j | 0 <= i < j < |spines[0]| :: spines[0][i] != spines[0][j])
     && (forall o | o in spines[0] :: o !in OpsOf(spines[1..]))
     && Separate(spines[1..]))
  }

  /** One level: `spine` lists its operations from `head` to `tail`. */
  ghost predicate Level(spine: seq<Op>, head: Op, tail: Op, len: nat)
    reads spine
  {
    && |spine| > 0 && spine[0] == head && spine[|spine| - 1] == tail
    && (forall i | 0 <= i < |spine| - 1 :: spine[i].next == spine[i + 1])
    && tail.next == null
    && (forall i | 1 <= i < |spine| :: spine[i].Ready())
    && len == |Bytes(spine[1..])|
  }

  ghost predicate Chain(states: States, spines: seq<seq<Op>>)
    reads OpsOf(spines)
  {
    match states
    case Bottom => spines == []
    case Saved(head, tail, len, next) =>
      && spines != []
      && Level(spines[0], head, tail, len)
      && Chain(next, spines[1..])
  }

  /** The stack of byte strings that the levels stand for, innermost first. */
  ghost function Stack(spines: seq<seq<Op>>): (s: seq<bytes>)
    ensures |s| == |spines|
  {
    if spines == [] then []
    else [if spines[0] == [] then [] else Bytes(spines[0][1..])] + Stack(spines[1..])
  }

  class Writer {
    var len: nat
    var head: Op
    var tail: Op
    var states: States
    ghost var spines: seq<seq<Op>>
    /** Every operation of every level. */
    ghost var ops: set<Op>

    ghost predicate Valid()
      reads this, ops
    {
      && |spines| > 0 && OpsOf(spines) == ops && tail in ops
      && Level(spines[0], head, tail, len)
      && Chain(states, spines[1..])
      && Separate(spines)
    }

    ghost function Contents(): seq<bytes>
      reads this
    {
      Stack(spines)
    }

    constructor ()
      ensures Valid() && fresh(ops)
      ensures Contents() == [[]]
    {
      var op := new Op(Noop, 0, Nothing);
      len := 0;
      head := op;
      tail := op;
      states := Bottom;
      spines := [[op]];
      ops := {op};
      new;
      assert spines[1..] == [];
      assert spines[0][1..] == [];
      assert OpsOf(spines[1..]) == {} && Stack(spines[1..]) == [];
      assert Separate(spines[1..]);
    }

    /** Appends one operation to the current level. */
    method Push(fn: Fn, n: nat, val: Val)
      requires Valid() && Suits(fn, val) && |Output(fn, val)| == n
      modifies this`len, this`tail, this`spines, this`ops, tail`next
      ensures Valid() && fresh(ops - old(ops))
      ensures Contents() == [old(Contents())[0] + Output(fn, val)] + old(Contents())[1..]
      ensures tail != old(tail) && fresh(tail) && |spines| == |old(spines)| && spines[1..] == old(spines)[1..]
      ensures spines[0] == old(spines)[0] + [tail] && tail.out == Output(fn, val)
    {
      hide Output, Separate, Stack, Bytes, Level, Chain;
      ghost var was := spines;
      LevelShape(was[0], head, tail, len);
      var op := new Op(fn, n, val);
      SpineAppend(was, op);
      Elsewhere(was, tail);
      TailLast(was);
      Attach(was[0], head, tail, len, op);
      tail := op;
      len := len + n;
      spines := [was[0] + [op]] + was[1..];
      ops := ops + {op};
      assert spines[1..] == was[1..];
    }

    /** The varint operation of `uint32`, its length by comparison. */
    method Uint32(value: int)
      requires Valid()
      modifies this`len, this`tail, this`spines, this`ops, tail`next
      ensures Valid() && fresh(ops - old(ops))
      ensures Contents() == [old(Contents())[0] + Varint(value % TWO_32)] + old(Contents())[1..]
      ensures tail != old(tail) && fresh(tail) && |spines| == |old(spines)| && spines[1..] == old(spines)[1..]
      ensures spines[0] == old(spines)[0] + [tail] && tail.out == Varint(value % TWO_32)
    {
      hide Varint, Separate, Stack, Bytes, Level, Chain;
      var w := ToUint32(value);
      Uint32Length(w);
      Push(WriteVarint32, if w < 128 then 1 else if w < 16384 then 2 else if w < 2097152 then 3 else if w < 268435456 then 4 else 5, Word(w));
    }

    /** A negative value takes ten bytes. */
    method Int32(value: int)
      requires Valid() && value >= -(TWO_64 / 2)
      modifies this`len, this`tail, this`spines, this`ops, tail`next
      ensures Valid() && fresh(ops - old(ops))
      ensures Contents() == [old(Contents())[0] + Varint(if value < 0 then value % TWO_64 else value % TWO_32)] + old(Contents())[1..]
    {
      hide Varint, Separate, Stack, Bytes, Level, Chain;
      if value < 0 {
        var bits := LongBits.FromNumber(value);
        DivUnique(value, TWO_64, -1, TWO_64 + value);
        VarintSizes(TWO_64 + value);
        Push(WriteVarint64, 10, Pair(bits.Val()));
      } else {
        Uint32(value);
      }
    }

    method Sint32(value: int)
      requires Valid()
      modifies this`len, this`tail, this`spines, this`ops, tail`next
      ensures Valid() && fresh(ops - old(ops))
      ensures Contents() == [old(Contents())[0] + Varint(ZigZag(ToInt32(value % TWO_32)))] + old(Contents())[1..]
    {
      hide Varint, Separate, Stack, Bytes, Level, Chain;
      hide Xor;
      var w := ToUint32(value);
      ZigZagWord(w);
      Uint32(Xor(ToUint32((w as int) * 2), SignMask(w)));
    }

    method Uint64(value: Long)
      requires Valid()
      modifies this`len, this`tail, this`spines, this`ops, tail`next
      ensures Valid() && fresh(ops - old(ops))
      ensures Contents() == [old(Contents())[0] + Varint(value.Value())] + old(Contents())[1..]
    {
      hide Varint, Separate, Stack, Bytes, Level, Chain;
      var bits := new LongBits(value.lo, value.hi);
      LongBits.Word(value.lo);
      LongBits.Word(value.hi);
      var n := bits.Length();
      Push(WriteVarint64, n, Pair(bits.Val()));
    }

    method Sint64(value: Long)
      requires Valid()
      modifies this`len, this`tail, this`spines, this`ops, tail`next
      ensures Valid() && fresh(ops - old(ops))
      ensures Contents() == [old(Contents())[0] + Varint(ZigZagLong(value).Value())] + old(Contents())[1..]
    {
      hide Varint, Separate, Stack, Bytes, Level, Chain;
      hide ZigZagLong;
      var bits := new LongBits(value.lo, value.hi);
      LongBits.Word(value.lo);
      LongBits.Word(value.hi);
      bits.ZzEncode();
      var n := bits.Length();
      Push(WriteVarint64, n, Pair(bits.Val()));
    }

    method Bool(value: bool)
      requires Valid()
      modifies this`len, this`tail, this`spines, this`ops, tail`next
      ensures Valid() && fresh(ops - old(ops))
      ensures Contents() == [old(Contents())[0] + Varint(if value then 1 else 0)] + old(Contents())[1..]
    {
      hide Separate, Stack, Bytes, Level, Chain;
      VarintLast(if value then 1 else 0);
      Push(WriteByte, 1, Word(if value then 1 else 0));
    }

    /** `fixed32` and `sfixed32`. */
    method WriteFixed(value: int)
      requires Valid()
      modifies this`len, this`tail, this`spines, this`ops, tail`next
      ensures Valid() && fresh(ops - old(ops))
      ensures Contents() == [old(Contents())[0] + Fixed32(value % TWO_32)] + old(Contents())[1..]
    {
      hide Separate, Stack, Bytes, Level, Chain, Fixed32;
      Push(WriteFixed32, 4, Word(ToUint32(value)));
    }

    /** `fixed64` and `sfixed64`: two operations. */
    method Fixed64(value: Long)
      requires Valid()
      modifies this`len, this`tail, this`spines, this`ops, tail`next
      ensures Valid() && fresh(ops - old(ops))
      ensures Contents() == [old(Contents())[0] + (Fixed32(value.lo) + Fixed32(value.hi))] + old(Contents())[1..]
    {
      hide Separate, Stack, Bytes, Level, Chain, Fixed32;
      ghost var before := Contents()[0];
      Push(WriteFixed32, 4, Word(value.lo));
      Push(WriteFixed32, 4, Word(value.hi));
      assert before + Fixed32(value.lo) + Fixed32(value.hi) == before + (Fixed32(value.lo) + Fixed32(value.hi));
    }

    /** A float or a double, as its bytes. */
    method Raw(value: bytes)
      requires Valid()
      modifies this`len, this`tail, this`spines, this`ops, tail`next
      ensures Valid() && fresh(ops - old(ops))
      ensures Contents() == [old(Contents())[0] + value] + old(Contents())[1..]
    {
      hide Separate, Stack, Bytes, Level, Chain;
      Push(WriteBytes, |value|, Data(value));
    }

    /** `bytes`. */
    method WriteDelimited(value: bytes)
      requires Valid()
      modifies this`len, this`tail, this`spines, this`ops, tail`next
      ensures Valid() && fresh(ops - old(ops))
      ensures Contents() == [old(Contents())[0] + Delimit(value)] + old(Contents())[1..]
    {
      hide Separate, Stack, Bytes, Level, Chain, Varint;
      ghost var before := Contents()[0];
      if |value| == 0 {
        VarintLast(0);
        Push(WriteByte, 1, Word(0));
        assert Delimit(value) == [0];
      } else {
        Uint32(|value|);
        Push(WriteBytes, |value|, Data(value));
        assert before + Varint(|value| % TWO_32) + value == before + Delimit(value);
      }
    }

    method String(value: Utf8.Units)
      requires Valid()
      modifies this`len, this`tail, this`spines, this`ops, tail`next
      ensures Valid() && fresh(ops - old(ops))
      ensures Contents() == [old(Contents())[0] + Delimit(Utf8.Encode(value))] + old(Contents())[1..]
    {
      hide Separate, Stack, Bytes, Level, Chain, Varint, Utf8.Encode;
      ghost var before := Contents()[0];
      var n := Utf8.Length(value);
      if n != 0 {
        Uint32(n);
        Push(WriteUtf8, n, Str(value));
        assert before + Varint(n % TWO_32) + Utf8.Encode(value) == before + Delimit(Utf8.Encode(value));
      } else {
        VarintLast(0);
        Push(WriteByte, 1, Word(0));
        assert Delimit(Utf8.Encode(value)) == [0];
      }
    }

    /** Starts a new level and saves the current one. */
    method Fork()
      requires Valid()
      modifies this
      ensures Valid() && fresh(ops - old(ops))
      ensures Contents() == [[]] + old(Contents())
    {
      hide Separate, Stack, Bytes, Chain, Level;
      ghost var was := spines;
      ChainSaved(was, Saved(head, tail, len, states));
      states := Saved(head, tail, len, states);
      var op := new Op(Noop, 0, Nothing);
      head := op;
      tail := op;
      len := 0;
      spines := [[op]] + spines;
      ops := ops + {op};
      LevelOne(op);
      Forked(was, op);
    }

    /** Drops the current level; without a saved one, everything starts over. */
    method Reset()
      requires Valid()
      modifies this
      ensures Valid() && fresh(ops - old(ops))
      ensures Contents() == if |old(Contents())| > 1 then old(Contents())[1..] else [[]]
      ensures |old(spines)| > 1 ==> spines == old(spines)[1..]
      ensures forall o | o in old(spines[0]) :: o !in ops
      ensures |old(spines)| == 1 ==> |spines| == 1 && |spines[0]| == 1 && fresh(spines[0][0])
    {
      hide Separate, Stack, Bytes;
      SpineDrop(spines);
      ChildApart(spines);
      match states {
        case Saved(h, t, n, next) =>
          head := h;
          tail := t;
          len := n;
          states := next;
          spines := spines[1..];
          ops := OpsOf(spines);
        case Bottom =>
          var op := new Op(Noop, 0, Nothing);
          head := op;
          tail := op;
          len := 0;
          spines := [[op]];
          ops := {op};
          Fresh(op);
      }
    }

    /** Links the operations of a dropped level behind the tail of the current one. */
    method Splice(ghost child: seq<Op>, h: Op, t: Op, n: nat)
      requires Valid() && Level(child, h, t, n) && n != 0
      requires Separate([child] + spines)
      modifies this`len, this`tail, this`spines, this`ops, tail`next
      ensures Valid() && ops == old(ops) + (set o | o in child[1..])
      ensures Contents() == [old(Contents())[0] + Bytes(child[1..])] + old(Contents())[1..]
    {
      hide Separate, Stack, Bytes, Chain, Level;
      ghost var was := spines;
      LevelShape(was[0], head, tail, len);
      LevelShape(child, h, t, n);
      Spliced(child, was);
      Elsewhere(was, tail);
      TailLast(was);
      Link(was[0], head, tail, len, child, h, t, n);
      tail := t;
      len := len + n;
      spines := [was[0] + child[1..]] + was[1..];
      ops := ops + (set o | o in child[1..]);
      assert spines[1..] == was[1..];
    }

    /** Writes the length of a dropped level, and its operations if it has any. */
    method Rejoin(ghost child: seq<Op>, h: Op, t: Op, n: nat)
      requires Valid() && Level(child, h, t, n)
      requires forall o | o in child :: o !in ops
      requires forall i, j | 0 <= i < j < |child| :: child[i] != child[j]
      modifies this`len, this`tail, this`spines, this`ops, tail`next
      ensures Valid() && fresh(ops - old(ops) - (set o | o in child))
      ensures Contents() == [old(Contents())[0] + Delimit(Bytes(child[1..]))] + old(Contents())[1..]
    {
      hide Separate, Stack, Bytes, Varint, Level, Chain;
      LevelShape(child, h, t, n);
      ghost var below, inner := Contents(), Bytes(child[1..]);
      Uint32(n);
      assert below[0] + Varint(n % TWO_32) + inner == below[0] + Delimit(inner);
      if n != 0 {
        Reunited(child, spines);
        Splice(child, h, t, n);
      } else {
        assert inner == [];
        assert Delimit(inner) == Varint(0);
      }
    }

    /** Closes a level: its length as a varint, then its operations, go to the level below. */
    method Ldelim()
      requires Valid()
      modifies this, ops
      ensures Valid() && fresh(ops - old(ops))
      ensures Contents() == if |old(Contents())| > 1
                            then [old(Contents())[1] + Delimit(old(Contents())[0])] + old(Contents())[2..]
                            else [Delimit(old(Contents())[0])]
    {
      hide Separate, Stack, Bytes, Level, Chain, Delimit;
      var h, t, n := head, tail, len;
      ghost var was, child := spines, spines[0];
      LevelShape(child, h, t, n);
      StackHead(was);
      ChildApart(was);
      SpineDrop(was);
      Reset();
      Rejoin(child, h, t, n);
      assert [] + Delimit(Bytes(child[1..])) == Delimit(Bytes(child[1..]));
    }

    /** Allocates a buffer of exactly `len` bytes and runs the operations of the current level into
        it. Buffers handed out earlier keep their bytes. */
    method Finish(pool: Pool) returns (buf: Slice)
      requires Valid() && pool.Valid()
      modifies pool, ops`val, if pool.slab == null then {} else {pool.slab}
      ensures pool.Valid() && pool.given == old(pool.given) + [buf]
      ensures buf.size == len && buf.Inside() && buf.Bytes() == old(Contents())[0]
      ensures forall a | a in old(pool.given) :: a.Inside() && a.Bytes() == old(a.Bytes())
    {
      hide Separate, Chain, Filled, Stack, Bytes, Level;
      ghost var spine := spines[0];
      LevelShape(spine, head, tail, len);
      StackHead(spines);
      ChildApart(spines);
      buf := pool.Alloc(len);
      ghost var was := buf.slab[..];
      RunAll(head, tail, len, spine, buf);
      FilledSize(buf.slab[..], was, buf.start, Bytes(spine[1..]));
      forall a | a in old(pool.given)
        ensures a.Inside() && a.Bytes() == old(a.Bytes())
      {
        if a.slab == buf.slab {
          assert Pools.Disjoint(a, buf);
          assert forall k | a.start <= k < a.start + a.size :: buf.slab[k] == was[k];
        }
      }
    }
  }

  /** What appending a new operation to the innermost level does to the whole stack. */
  lemma SpineAppend(spines: seq<seq<Op>>, op: Op)
    requires |spines| > 0 && |spines[0]| > 0 && Separate(spines) && op !in OpsOf(spines)
    ensures var more := [spines[0] + [op]] + spines[1..];
      && Separate(more) && OpsOf(more) == OpsOf(spines) + {op}
      && Stack(more) == [Stack(spines)[0] + op.out] + Stack(spines)[1..]
  {
    var more := [spines[0] + [op]] + spines[1..];
    assert more[1..] == spines[1..];
    Appended(spines[0], op);
  }

  lemma Elsewhere(spines: seq<seq<Op>>, op: Op)
    requires |spines| > 0 && Separate(spines) && op in spines[0]
    ensures op !in OpsOf(spines[1..]) && op in OpsOf(spines)
  {
  }

  lemma Appended(spine: seq<Op>, op: Op)
    requires |spine| > 0
    ensures (spine + [op])[1..] == spine[1..] + [op]
    ensures Bytes((spine + [op])[1..]) == Bytes(spine[1..]) + op.out
  {
    assert (spine + [op])[1..] == spine[1..] + [op];
    BytesConcat(spine[1..], [op]);
    assert [op][1..] == [];
    assert op.out + [] == op.out;
  }

  lemma Uint32Length(w: word)
    ensures |Varint(w)| == if w < 128 then 1 else if w < 16384 then 2 else if w < 2097152 then 3 else if w < 268435456 then 4 else 5
  {
    LongBits.LengthTable(Long(w, 0));
    VarintSizes(w);
  }

  /** `value << 1 ^ value >> 31`. */
  lemma ZigZagWord(w: word)
    ensures Xor(ToUint32(w * 2), SignMask(w)) == ZigZag(ToInt32(w)) < TWO_32
  {
    hide Xor;
    XorWord(ToUint32(w * 2), SignMask(w));
  }

  lemma Forked(spines: seq<seq<Op>>, op: Op)
    requires Separate(spines) && op !in OpsOf(spines)
    ensures var more := [[op]] + spines;
      && Separate(more) && OpsOf(more) == OpsOf(spines) + {op} && Stack(more) == [[]] + Stack(spines)
      && Bytes([op][1..]) == []
  {
    assert ([[op]] + spines)[1..] == spines;
    assert [op][1..] == [];
  }

  lemma LevelOne(op: Op)
    requires op.next == null
    ensures Level([op], op, op, 0)
  {
  }

  lemma ChainSaved(spines: seq<seq<Op>>, states: States)
    requires states.Saved? && |spines| > 0 && Level(spines[0], states.head, states.tail, states.len)
    requires Chain(states.next, spines[1..])
    ensures Chain(states, spines)
  {
  }

  lemma Fresh(op: Op)
    ensures Separate([[op]]) && OpsOf([[op]]) == {op} && Stack([[op]]) == [[]] && Bytes([op][1..]) == []
  {
    assert [[op]][1..] == [];
    assert [op][1..] == [];
    assert OpsOf([]) == {} && Separate([]);
  }

  lemma SpineDrop(spines: seq<seq<Op>>)
    requires |spines| > 0 && Separate(spines)
    ensures Separate(spines[1..]) && OpsOf(spines[1..]) <= OpsOf(spines)
    ensures Stack(spines[1..]) == Stack(spines)[1..] && |Stack(spines)| == |spines|
  {
  }

  lemma NonEmptyBytes(child: seq<Op>)
    requires |child| > 0 && |Bytes(child[1..])| > 0
    ensures |child| > 1
  {
  }

  lemma StackHead(spines: seq<seq<Op>>)
    requires |spines| > 0 && |spines[0]| > 0
    ensures Stack(spines)[0] == Bytes(spines[0][1..])
  {
  }

  /** What splicing a level in does to the whole stack. */
  lemma Spliced(child: seq<Op>, spines: seq<seq<Op>>)
    requires |child| > 0 && |spines| > 0 && |spines[0]| > 0 && Separate([child] + spines)
    ensures var more := [spines[0] + child[1..]] + spines[1..];
      && Separate(more) && OpsOf(more) == OpsOf(spines) + (set o | o in child[1..])
      && Stack(more) == [Stack(spines)[0] + Bytes(child[1..])] + Stack(spines)[1..]
    ensures Separate(spines) && forall o | o in child :: o !in OpsOf(spines)
  {
    hide Bytes, Stack;
    assert ([child] + spines)[1..] == spines && ([child] + spines)[0] == child;
    SplicedApart(child, spines);
    SplicedStack(child, spines);
  }

  lemma SplicedApart(child: seq<Op>, spines: seq<seq<Op>>)
    requires |child| > 0 && |spines| > 0 && |spines[0]| > 0 && Separate(spines)
    requires forall i, j | 0 <= i < j < |child| :: child[i] != child[j]
    requires forall o | o in child :: o !in OpsOf(spines)
    ensures var more := [spines[0] + child[1..]] + spines[1..];
      Separate(more) && OpsOf(more) == OpsOf(spines) + (set o | o in child[1..])
  {
    var more := [spines[0] + child[1..]] + spines[1..];
    assert more[1..] == spines[1..];
    var s := more[0];
    forall i, j | 0 <= i < j < |s|
      ensures s[i] != s[j]
    {
      if i < |spines[0]| <= j {
        assert s[i] in OpsOf(spines);
        assert s[j] in child;
      }
    }
    forall o | o in s
      ensures o !in OpsOf(spines[1..])
    {
      assert o in spines[0] || o in child;
    }
  }

  lemma SplicedStack(child: seq<Op>, spines: seq<seq<Op>>)
    requires |child| > 0 && |spines| > 0 && |spines[0]| > 0
    ensures Stack([spines[0] + child[1..]] + spines[1..]) == [Stack(spines)[0] + Bytes(child[1..])] + Stack(spines)[1..]
  {
    var more := [spines[0] + child[1..]] + spines[1..];
    assert more[1..] == spines[1..];
    assert more[0][1..] == spines[0][1..] + child[1..];
    BytesConcat(spines[0][1..], child[1..]);
  }

  lemma ChildApart(spines: seq<seq<Op>>)
    requires |spines| > 0 && Separate(spines)
    ensures forall o | o in spines[0] :: o !in OpsOf(spines[1..]) && o in OpsOf(spines)
    ensures forall i, j | 0 <= i < j < |spines[0]| :: spines[0][i] != spines[0][j]
    ensures |spines| == 1 ==> OpsOf(spines[1..]) == {}
  {
  }

  lemma Reunited(child: seq<Op>, spines: seq<seq<Op>>)
    requires Separate(spines)
    requires forall i, j | 0 <= i < j < |child| :: child[i] != child[j]
    requires forall o | o in child :: o !in OpsOf(spines)
    ensures Separate([child] + spines)
  {
    assert ([child] + spines)[1..] == spines;
  }

  lemma TailLast(spines: seq<seq<Op>>)
    requires |spines| > 0 && |spines[0]| > 0 && Separate(spines)
    ensures forall i | 0 <= i < |spines[0]| - 1 :: spines[0][i] != spines[0][|spines[0]| - 1]
  {
  }

  lemma JoinedOps(a: seq<Op>, b: seq<Op>)
    requires |a| > 0 && |b| > 0
    ensures var s := a + b[1..];
      && |s| == |a| + |b| - 1
      && (forall i | 0 <= i < |a| :: s[i] == a[i])
      && (forall i | 1 <= i < |b| :: s[|a| + i - 1] == b[i])
    ensures Bytes((a + b[1..])[1..]) == Bytes(a[1..]) + Bytes(b[1..])
  {
    assert (a + b[1..])[1..] == a[1..] + b[1..];
    BytesConcat(a[1..], b[1..]);
  }

  /** `tail.next = head.next` makes one level of two. */
  method Link(ghost a: seq<Op>, ghost headA: Op, tailA: Op, ghost lenA: nat, ghost b: seq<Op>, headB: Op, ghost tailB: Op, ghost lenB: nat)
    requires Level(a, headA, tailA, lenA) && Level(b, headB, tailB, lenB) && lenB != 0
    requires tailA !in b && forall i | 0 <= i < |a| - 1 :: a[i] != tailA
    modifies tailA`next
    ensures Level(a + b[1..], headA, tailB, lenA + lenB)
  {
    hide Bytes, Output, Suits;
    ghost var s, k := a + b[1..], |a|;
    NonEmptyBytes(b);
    JoinedOps(a, b);
    tailA.next := headB.next;
    forall i | 0 <= i < |s| - 1
      ensures s[i].next == s[i + 1]
    {
      if i < k - 1 {
        assert s[i] == a[i] && s[i + 1] == a[i + 1];
      } else if i == k - 1 {
        assert s[i] == a[i] && s[k + 1 - 1] == b[1];
      } else {
        var j := i - k + 1;
        assert s[k + j - 1] == b[j] && s[k + (j + 1) - 1] == b[j + 1] && b[j] in b;
      }
    }
    forall i | 1 <= i < |s|
      ensures s[i].Ready()
    {
      if i < k {
        assert s[i] == a[i];
      } else {
        var j := i - k + 1;
        assert s[k + j - 1] == b[j];
      }
    }
    assert s[k + (|b| - 1) - 1] == b[|b| - 1] && tailB in b;
  }

  lemma LevelShape(spine: seq<Op>, head: Op, tail: Op, len: nat)
    requires Level(spine, head, tail, len)
    ensures |spine| > 0 && spine[0] == head && spine[|spine| - 1] == tail && tail in spine
    ensures len == |Bytes(spine[1..])|
    ensures len != 0 ==> |spine| > 1 && spine[1..][|spine| - 2] == tail && tail in spine[1..]
  {
  }

  /** `tail.next = op` makes the level one longer. */
  method Attach(ghost a: seq<Op>, ghost head: Op, tail: Op, ghost len: nat, op: Op)
    requires Level(a, head, tail, len) && op !in a && op.next == null && op.Ready()
    requires forall i | 0 <= i < |a| - 1 :: a[i] != tail
    modifies tail`next
    ensures Level(a + [op], head, op, len + op.len)
  {
    hide Bytes, Output, Suits;
    Appended(a, op);
    tail.next := op;
    ghost var s := a + [op];
    assert forall i | 0 <= i < |a| :: s[i] == a[i];
    assert forall i | 0 <= i < |a| - 1 :: a[i].next == a[i + 1];
    assert forall i | 1 <= i < |a| :: a[i].Ready();
    assert s[|a|] == op;
  }

  lemma BytesNone(ops: seq<Op>)
    requires ops == []
    ensures Bytes(ops) == []
  {
  }

  lemma BytesStep(spine: seq<Op>, i: nat)
    requires 1 <= i < |spine|
    ensures Bytes(spine[1..i + 1]) == Bytes(spine[1..i]) + spine[i].out
    ensures |Bytes(spine[1..i])| + |spine[i].out| <= |Bytes(spine[1..])|
  {
    assert spine[1..i + 1] == spine[1..i] + [spine[i]];
    BytesConcat(spine[1..i], [spine[i]]);
    assert [spine[i]][1..] == [];
    assert spine[i].out + [] == spine[i].out;
    assert spine[1..] == spine[1..i + 1] + spine[i + 1..];
    BytesConcat(spine[1..i + 1], spine[i + 1..]);
  }

  /** The walk over the list that `finish` makes. */
  method RunAll(head: Op, ghost tail: Op, ghost len: nat, ghost spine: seq<Op>, buf: Slice)
    requires Level(spine, head, tail, len) && buf.Inside() && buf.size == len
    requires forall i, j | 0 <= i < j < |spine| :: spine[i] != spine[j]
    modifies (set o | o in spine)`val, buf.slab
    ensures Filled(buf.slab[..], old(buf.slab[..]), buf.start, Bytes(spine[1..]))
  {
    hide Filled, Bytes, Output, Suits;
    ghost var was := buf.slab[..];
    FilledNone(was, buf.start);
    BytesNone(spine[1..1]);
    var op := head.next;
    var pos := 0;
    ghost var i := 1;
    while op != null
      invariant 1 <= i <= |spine|
      invariant op == if i < |spine| then spine[i] else null
      invariant forall k | i <= k < |spine| :: spine[k].Ready()
      invariant pos == |Bytes(spine[1..i])|
      invariant Filled(buf.slab[..], was, buf.start, Bytes(spine[1..i]))
      decreases |spine| - i
    {
      BytesStep(spine, i);
      ghost var mid := buf.slab[..];
      op.Run(buf.slab, buf.start + pos);
      FilledJoin(buf.slab[..], mid, was, buf.start, Bytes(spine[1..i]), op.out);
      pos := pos + op.len;
      op := op.next;
      i := i + 1;
    }
    assert spine[1..i] == spine[1..];
  }
}
