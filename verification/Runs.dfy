/** Whole runs of a writer: every sequence of its calls, against a stack of byte strings. */
module Runs {
  import opened Bits
  import opened Varints
  import opened Reading
  import opened Longs
  import opened Pools
  import opened Writers
  import Utf8

  datatype Call =
    | Uint32(value: int)
    | Int32(value: int)
    | Sint32(value: int)
    | Uint64(long: Long)
    | Sint64(long: Long)
    | Bool(flag: bool)
    | FixedWord(value: int)
    | FixedLong(long: Long)
    | Raw(data: bytes)
    | Bytes(data: bytes)
    | String(text: Utf8.Units)
    | Fork
    | Reset
    | Ldelim
  {
    /** `int32` takes numbers that a 64-bit integer can hold. */
    predicate Fits() {
      Int32? ==> value >= -(TWO_64 / 2)
    }
  }

  /** What a call appends to the innermost level. */
  ghost function Appended(c: Call): bytes {
    match c
    case Uint32(v) => Varint(v % TWO_32)
    case Int32(v) => Varint(if v < 0 then v % TWO_64 else v % TWO_32)
    case Sint32(v) => Varint(ZigZag(ToInt32(v % TWO_32)))
    case Uint64(l) => Varint(l.Value())
    case Sint64(l) => Varint(ZigZagLong(l).Value())
    case Bool(b) => Varint(if b then 1 else 0)
    case FixedWord(v) => Fixed32(v % TWO_32)
    case FixedLong(l) => Fixed32(l.lo) + Fixed32(l.hi)
    case Raw(b) => b
    case Bytes(b) => Delimit(b)
    case String(u) => Delimit(Utf8.Encode(u))
    case Fork | Reset | Ldelim => []
  }

  /** The stack after a call, innermost level first. */
  ghost function Effect(stack: seq<bytes>, c: Call): (r: seq<bytes>)
    requires |stack| > 0
    ensures |r| > 0
  {
    match c
    case Fork => [[]] + stack
    case Reset => if |stack| > 1 then stack[1..] else [[]]
    case Ldelim => if |stack| > 1 then [stack[1] + Delimit(stack[0])] + stack[2..] else [Delimit(stack[0])]
    case _ => [stack[0] + Appended(c)] + stack[1..]
  }

  ghost function Effects(stack: seq<bytes>, cs: seq<Call>): (r: seq<bytes>)
    requires |stack| > 0
    ensures |r| > 0
    decreases |cs|
  {
    if cs == [] then stack else Effects(Effect(stack, cs[0]), cs[1..])
  }

  method Perform(w: Writer, c: Call)
    requires w.Valid() && c.Fits()
    modifies w, w.ops
    ensures w.Valid() && fresh(w.ops - old(w.ops)) && |old(w.Contents())| > 0
    ensures w.Contents() == Effect(old(w.Contents()), c)
  {
    hide Level, Chain, Separate, Stack, Varint, Fixed32, Delimit, ZigZag, ZigZagLong;
    NotEmpty(w);
    match c
    case Uint32(v) => w.Uint32(v);
    case Int32(v) => w.Int32(v);
    case Sint32(v) => w.Sint32(v);
    case Uint64(l) => w.Uint64(l);
    case Sint64(l) => w.Sint64(l);
    case Bool(b) => w.Bool(b);
    case FixedWord(v) => w.WriteFixed(v);
    case FixedLong(l) => w.Fixed64(l);
    case Raw(b) => w.Raw(b);
    case Bytes(b) => w.WriteDelimited(b);
    case String(u) => w.String(u);
    case Fork => w.Fork();
    case Reset => w.Reset();
    case Ldelim => w.Ldelim();
  }

  lemma NotEmpty(w: Writer)
    requires w.Valid()
    ensures |w.Contents()| > 0
  {
  }

  method PerformAll(w: Writer, calls: seq<Call>)
    requires w.Valid() && forall c | c in calls :: c.Fits()
    modifies w, w.ops
    ensures w.Valid() && fresh(w.ops - old(w.ops)) && |old(w.Contents())| > 0
    ensures w.Contents() == Effects(old(w.Contents()), calls)
  {
    hide Effect, Effects, Level, Chain, Separate, Stack;
    var i := 0;
    NotEmpty(w);
    ghost var start := w.Contents();
    assert calls[0..] == calls;
    while i < |calls|
      invariant i <= |calls| && w.Valid() && fresh(w.ops - old(w.ops)) && |w.Contents()| > 0
      invariant Effects(w.Contents(), calls[i..]) == Effects(start, calls)
    {
      CallsStep(w.Contents(), calls, i);
      Perform(w, calls[i]);
      i := i + 1;
    }
    CallsEnd(w.Contents(), calls, i);
  }

  /** After any sequence of calls, `finish` fills a buffer of its exact size with the innermost byte
      string, and no buffer finished earlier changes. */
  method RunCalls(calls: seq<Call>, pool: Pool) returns (buf: Slice)
    requires pool.Valid() && forall c | c in calls :: c.Fits()
    modifies pool, if pool.slab == null then {} else {pool.slab}
    ensures pool.Valid() && pool.given == old(pool.given) + [buf]
    ensures buf.Inside() && buf.Bytes() == Effects([[]], calls)[0]
    ensures forall a | a in old(pool.given) :: a.Inside() && a.Bytes() == old(a.Bytes())
  {
    hide Effect, Effects, Level, Chain, Separate, Stack;
    var w := new Writer();
    PerformAll(w, calls);
    buf := w.Finish(pool);
  }

  lemma CallsStep(stack: seq<bytes>, cs: seq<Call>, i: nat)
    requires |stack| > 0 && i < |cs|
    ensures Effects(stack, cs[i..]) == Effects(Effect(stack, cs[i]), cs[i + 1..])
  {
    hide Effect;
    assert cs[i..][1..] == cs[i + 1..];
  }

  lemma CallsEnd(stack: seq<bytes>, cs: seq<Call>, i: nat)
    requires |stack| > 0 && i == |cs|
    ensures Effects(stack, cs[i..]) == stack
  {
  }

  // ---- nesting ----

  /** From `depth` levels on, the calls end with one level and never drop the last one. */
  predicate Sheltered(cs: seq<Call>, depth: nat) {
    if cs == [] then depth == 1
    else match cs[0]
      case Fork => Sheltered(cs[1..], depth + 1)
      case Reset | Ldelim => depth > 1 && Sheltered(cs[1..], depth - 1)
      case _ => Sheltered(cs[1..], depth)
  }

  /** What such calls do does not depend on the levels below. */
  lemma {:induction false} EffectsApart(top: seq<bytes>, below: seq<bytes>, cs: seq<Call>)
    requires |top| > 0 && Sheltered(cs, |top|)
    ensures |Effects(top, cs)| == 1 && Effects(top + below, cs) == Effects(top, cs) + below
    decreases |cs|
  {
    hide Appended, Delimit;
    if cs != [] {
      EffectApart(top, below, cs[0]);
      EffectsApart(Effect(top, cs[0]), below, cs[1..]);
    }
  }

  lemma WriteApart(top: seq<bytes>, below: seq<bytes>, x: bytes)
    requires |top| > 0
    ensures [(top + below)[0] + x] + (top + below)[1..] == ([top[0] + x] + top[1..]) + below
  {
  }

  lemma DropApart(top: seq<bytes>, below: seq<bytes>)
    requires |top| > 0
    ensures (top + below)[1..] == top[1..] + below
  {
  }

  lemma CloseApart(top: seq<bytes>, below: seq<bytes>, x: bytes)
    requires |top| > 1
    ensures [(top + below)[1] + x] + (top + below)[2..] == ([top[1] + x] + top[2..]) + below
  {
  }

  lemma EffectApart(top: seq<bytes>, below: seq<bytes>, c: Call)
    requires |top| > 0 && (c.Reset? || c.Ldelim? ==> |top| > 1)
    ensures Effect(top + below, c) == Effect(top, c) + below
    ensures |Effect(top, c)| == if c.Fork? then |top| + 1 else if c.Reset? || c.Ldelim? then |top| - 1 else |top|
  {
    hide Appended, Delimit;
    if c.Fork? {
      assert [[]] + (top + below) == ([[]] + top) + below;
    } else if c.Reset? {
      DropApart(top, below);
    } else if c.Ldelim? {
      CloseApart(top, below, Delimit(top[0]));
    } else {
      WriteApart(top, below, Appended(c));
    }
  }

  /** Between `fork` and `ldelim`, calls write one length-delimited element to the level below, with
      exactly the bytes that they write on their own. */
  lemma ForkLdelim(stack: seq<bytes>, cs: seq<Call>)
    requires |stack| > 0 && Sheltered(cs, 1)
    ensures Effects(stack, [Fork] + cs + [Ldelim]) == [stack[0] + Delimit(Effects([[]], cs)[0])] + stack[1..]
  {
    hide Delimit, Appended, Effects, Sheltered;
    var inner := Effects([[]], cs);
    EffectsConcat([[]] + stack, cs, [Ldelim]);
    EffectsApart([[]], stack, cs);
    ForkFirst(stack, cs + [Ldelim]);
    assert [Fork] + cs + [Ldelim] == [Fork] + (cs + [Ldelim]);
    OnlyLdelim(inner + stack);
    assert (inner + stack)[1] == stack[0] && (inner + stack)[2..] == stack[1..];
  }

  lemma ForkFirst(stack: seq<bytes>, cs: seq<Call>)
    requires |stack| > 0
    ensures Effects(stack, [Fork] + cs) == Effects([[]] + stack, cs)
  {
    assert ([Fork] + cs)[1..] == cs;
  }

  lemma OnlyLdelim(stack: seq<bytes>)
    requires |stack| > 1
    ensures Effects(stack, [Ldelim]) == [stack[1] + Delimit(stack[0])] + stack[2..]
  {
    hide Delimit;
    assert [Ldelim][1..] == [];
  }

  lemma {:induction false} EffectsConcat(stack: seq<bytes>, a: seq<Call>, b: seq<Call>)
    requires |stack| > 0
    ensures Effects(stack, a + b) == Effects(Effects(stack, a), b)
    decreases |a|
  {
    hide Effect;
    if a == [] {
      assert a + b == b;
    } else {
      assert (a + b)[1..] == a[1..] + b;
      EffectsConcat(Effect(stack, a[0]), a[1..], b);
    }
  }
}
