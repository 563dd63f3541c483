/** UTF-8 over 16-bit code units, lone surrogates included, with the byte layouts of
    section 3 of RFC 3629. `Read` keeps the chunk buffer of the source, whose stale tail is
    joined again when a flush is shorter than an earlier one. */
module Utf8 {
  import opened Bits
  import opened Varints
  import opened Buffers

  type Units = seq<unit16>

  /** The chunk buffer is flushed when it holds more units than this. */
  const CHUNK: nat := 8191

  predicate High(u: unit16) { 0xD800 <= u < 0xDC00 }
  predicate Low(u: unit16) { 0xDC00 <= u < 0xE000 }

  predicate PairAt(s: Units, i: nat) {
    i + 1 < |s| && High(s[i]) && Low(s[i + 1])
  }

  function Two(c: nat): (b: bytes)
    requires c < 0x800
    ensures |b| == 2
  {
    [c / 0x40 + 0xC0, c % 0x40 + 0x80]
  }

  function Three(c: nat): (b: bytes)
    requires c < 0x1_0000
    ensures |b| == 3
  {
    [c / 0x1000 + 0xE0, c / 0x40 % 0x40 + 0x80, c % 0x40 + 0x80]
  }

  function Four(c: nat): (b: bytes)
    requires c < 0x11_0000
    ensures |b| == 4
  {
    [c / 0x4_0000 + 0xF0, c / 0x1000 % 0x40 + 0x80, c / 0x40 % 0x40 + 0x80, c % 0x40 + 0x80]
  }

  /** The code point of a surrogate pair. */
  function Joined(high: unit16, low: unit16): (c: nat)
    requires High(high) && Low(low)
    ensures 0x1_0000 <= c < 0x11_0000
  {
    0x1_0000 + (high - 0xD800) * 0x400 + (low - 0xDC00)
  }

  /** How many units the character at `i` takes. */
  function Width(s: Units, i: nat): (n: nat)
    requires i < |s|
    ensures 1 <= n <= 2 && i + n <= |s|
  {
    if PairAt(s, i) then 2 else 1
  }

  /** The bytes of the character at `i`. */
  function Char(s: Units, i: nat): (b: bytes)
    requires i < |s|
    ensures 1 <= |b| <= 4
  {
    if s[i] < 0x80 then [s[i]]
    else if s[i] < 0x800 then Two(s[i])
    else if PairAt(s, i) then Four(Joined(s[i], s[i + 1]))
    else Three(s[i])
  }

  /** The bytes of the units from `i` on. */
  function EncodeFrom(s: Units, i: nat): bytes
    requires i <= |s|
    decreases |s| - i
  {
    if i == |s| then [] else Char(s, i) + EncodeFrom(s, i + Width(s, i))
  }

  function Encode(s: Units): bytes { EncodeFrom(s, 0) }

  lemma {:induction false} EncodeBound(s: Units, i: nat)
    requires i <= |s|
    ensures |EncodeFrom(s, i)| <= 4 * (|s| - i)
    decreases |s| - i
  {
    if i < |s| {
      EncodeBound(s, i + Width(s, i));
    }
  }

  // ---- the layout of RFC 3629, section 3 ----

  /** The code points of a string: surrogate pairs are joined, all other units stand for themselves. */
  function CodePoints(s: Units, i: nat): seq<nat>
    requires i <= |s|
    decreases |s| - i
  {
    if i == |s| then []
    else if i + 1 < |s| && 0xD800 <= s[i] <= 0xDBFF && 0xDC00 <= s[i + 1] <= 0xDFFF then
      [0x1_0000 + ((s[i] as int) - 0xD800) * 0x400 + ((s[i + 1] as int) - 0xDC00)] + CodePoints(s, i + 2)
    else [s[i] as nat] + CodePoints(s, i + 1)
  }

  function Size(c: nat): nat {
    if c < 0x80 then 1 else if c < 0x800 then 2 else if c < 0x1_0000 then 3 else 4
  }

  /** What a byte holds above its fixed bits. */
  function Field(b: byte, fixed: int): int {
    (b as int) - fixed
  }

  /** The bytes of one code point: no longer than need be, with the ranges of the table of byte
      sequences, and with its bits in order. */
  predicate Block(c: nat, b: bytes) {
    && |b| == Size(c)
    && (forall i | 1 <= i < |b| :: 0x80 <= b[i] <= 0xBF)
    && (|b| == 1 ==> b[0] == c)
    && (|b| == 2 ==> 0xC2 <= b[0] <= 0xDF && c == Field(b[0], 0xC0) * 0x40 + Field(b[1], 0x80))
    && (|b| == 3 ==>
          && 0xE0 <= b[0] <= 0xEF && (b[0] == 0xE0 ==> b[1] >= 0xA0)
          && c == Field(b[0], 0xE0) * 0x1000 + Field(b[1], 0x80) * 0x40 + Field(b[2], 0x80))
    && (|b| == 4 ==>
          && 0xF0 <= b[0] <= 0xF4 && (b[0] == 0xF0 ==> b[1] >= 0x90) && (b[0] == 0xF4 ==> b[1] <= 0x8F)
          && c == Field(b[0], 0xF0) * 0x4_0000 + Field(b[1], 0x80) * 0x1000 + Field(b[2], 0x80) * 0x40 + Field(b[3], 0x80))
  }

  /** One block for each code point, in order, and nothing else. */
  predicate Layout(cs: seq<nat>, b: bytes)
    decreases |cs|
  {
    if cs == [] then b == []
    else Size(cs[0]) <= |b| && Block(cs[0], b[..Size(cs[0])]) && Layout(cs[1..], b[Size(cs[0])..])
  }

  function Sizes(cs: seq<nat>): nat {
    if cs == [] then 0 else Size(cs[0]) + Sizes(cs[1..])
  }

  lemma TwoBlock(c: nat)
    requires 0x80 <= c < 0x800
    ensures Block(c, Two(c))
  {
  }

  lemma ThreeBlock(c: nat)
    requires 0x800 <= c < 0x1_0000
    ensures Block(c, Three(c))
  {
    var q := c / 0x40;
    var a, x, y := q / 0x40, q % 0x40, c % 0x40;
    DivUnique(c, 0x1000, a, x * 0x40 + y);
    var b := Three(c);
    assert b[0] == a + 0xE0 && b[1] == x + 0x80 && b[2] == y + 0x80;
  }

  lemma FourBlock(c: nat)
    requires 0x1_0000 <= c < 0x11_0000
    ensures Block(c, Four(c))
  {
    var q := c / 0x40;
    var r := q / 0x40;
    var a, x, y, z := r / 0x40, r % 0x40, q % 0x40, c % 0x40;
    DivUnique(c, 0x1000, r, y * 0x40 + z);
    DivUnique(c, 0x4_0000, a, x * 0x1000 + y * 0x40 + z);
    var b := Four(c);
    assert b[0] == a + 0xF0 && b[1] == x + 0x80 && b[2] == y + 0x80 && b[3] == z + 0x80;
  }

  /** The bytes of every string have the layout: one block per code point, lone surrogates as they
      are. */
  lemma {:induction false} EncodeLayout(s: Units, i: nat)
    requires i <= |s|
    ensures Layout(CodePoints(s, i), EncodeFrom(s, i))
    ensures Sizes(CodePoints(s, i)) == |EncodeFrom(s, i)|
    decreases |s| - i
  {
    hide Two, Three, Four, Block;
    if i < |s| {
      var j := i + Width(s, i);
      var c, one, rest := CodePoints(s, i)[0], Char(s, i), EncodeFrom(s, j);
      EncodeLayout(s, j);
      CharBlock(s, i, c);
      assert CodePoints(s, i)[1..] == CodePoints(s, j);
      assert (one + rest)[..|one|] == one && (one + rest)[|one|..] == rest;
    }
  }

  lemma CharBlock(s: Units, i: nat, c: nat)
    requires i < |s| && c == CodePoints(s, i)[0]
    ensures Block(c, Char(s, i)) && |Char(s, i)| == Size(c)
  {
    hide Two, Three, Four;
    if c < 0x80 {
    } else if c < 0x800 {
      TwoBlock(c);
    } else if c < 0x1_0000 {
      ThreeBlock(c);
    } else {
      FourBlock(c);
    }
  }

  lemma SameField(h: int, l: int, h': int, l': int)
    requires 0 <= l < 0x40 && 0 <= l' < 0x40 && h * 0x40 + l == h' * 0x40 + l'
    ensures h == h' && l == l'
  {
  }

  lemma BlockUnique(c: nat, a: bytes, b: bytes)
    requires Block(c, a) && Block(c, b)
    ensures a == b
  {
    if |a| == 1 {
    } else if |a| == 2 {
      SameField(Field(a[0], 0xC0), Field(a[1], 0x80), Field(b[0], 0xC0), Field(b[1], 0x80));
    } else if |a| == 3 {
      ThreeUnique(c, a, b);
    } else {
      FourUnique(c, a, b);
    }
  }

  lemma ThreeUnique(c: nat, a: bytes, b: bytes)
    requires Block(c, a) && Block(c, b) && |a| == 3
    ensures a == b
  {
    var h, h' := Field(a[0], 0xE0) * 0x40 + Field(a[1], 0x80), Field(b[0], 0xE0) * 0x40 + Field(b[1], 0x80);
    SameField(h, Field(a[2], 0x80), h', Field(b[2], 0x80));
    SameField(Field(a[0], 0xE0), Field(a[1], 0x80), Field(b[0], 0xE0), Field(b[1], 0x80));
  }

  lemma FourUnique(c: nat, a: bytes, b: bytes)
    requires Block(c, a) && Block(c, b) && |a| == 4
    ensures a == b
  {
    var g, g' := Field(a[0], 0xF0) * 0x40 + Field(a[1], 0x80), Field(b[0], 0xF0) * 0x40 + Field(b[1], 0x80);
    var h, h' := g * 0x40 + Field(a[2], 0x80), g' * 0x40 + Field(b[2], 0x80);
    SameField(h, Field(a[3], 0x80), h', Field(b[3], 0x80));
    SameField(g, Field(a[2], 0x80), g', Field(b[2], 0x80));
    SameField(Field(a[0], 0xF0), Field(a[1], 0x80), Field(b[0], 0xF0), Field(b[1], 0x80));
  }

  lemma {:induction false} LayoutUnique(cs: seq<nat>, a: bytes, b: bytes)
    requires Layout(cs, a) && Layout(cs, b)
    ensures a == b
    decreases |cs|
  {
    hide Block;
    if cs != [] {
      var n := Size(cs[0]);
      BlockUnique(cs[0], a[..n], b[..n]);
      LayoutUnique(cs[1..], a[n..], b[n..]);
      assert a == a[..n] + a[n..] && b == b[..n] + b[n..];
    }
  }

  function ByteAt(b: bytes, i: nat): byte { if i < |b| then b[i] else 0 }

  /** The halves of a surrogate pair; the offset is negative for an overlong form. */
  function HighHalf(c: int): unit16
    requires -0x1_0000 <= c < 0x1F_0000
  {
    0xD800 + c / 0x400
  }

  function LowHalf(c: int): unit16 {
    0xDC00 + c % 0x400
  }

  /** The units that one turn of the reading loop stores, and where the next turn starts. */
  datatype Turn = Turn(units: Units, next: nat)

  function ReadTurn(b: bytes, start: nat): (r: Turn)
    requires start < |b|
    ensures start < r.next <= start + 4 && 1 <= |r.units| <= 2
  {
    var t: int := b[start];
    if t < 128 then Turn([t], start + 1)
    else if 191 < t < 224 then Turn([TwoValue(t, ByteAt(b, start + 1))], start + 2)
    else if 239 < t < 365 then
      var c := FourValue(t, ByteAt(b, start + 1), ByteAt(b, start + 2), ByteAt(b, start + 3)) - 0x1_0000;
      Turn([HighHalf(c), LowHalf(c)], start + 4)
    else Turn([ThreeValue(t, ByteAt(b, start + 1), ByteAt(b, start + 2))], start + 3)
  }

  function TwoValue(t: int, b1: int): (c: nat)
    ensures c < 0x800
  {
    t % 0x20 * 0x40 + b1 % 0x40
  }

  function ThreeValue(t: int, b1: int, b2: int): (c: nat)
    ensures c < 0x1_0000
  {
    t % 0x10 * 0x1000 + b1 % 0x40 * 0x40 + b2 % 0x40
  }

  function FourValue(t: int, b1: int, b2: int, b3: int): (c: nat)
    ensures c < 0x20_0000
  {
    t % 8 * 0x4_0000 + b1 % 0x40 * 0x1000 + b2 % 0x40 * 0x40 + b3 % 0x40
  }

  /** The decoding loop, without the chunk buffer. */
  function Decode(b: bytes, start: nat, end: nat): Units
    requires end <= |b|
    decreases end - start
  {
    if start >= end then [] else ReadTurn(b, start).units + Decode(b, ReadTurn(b, start).next, end)
  }

  lemma TwoInverse(c: nat)
    requires 0x80 <= c < 0x800
    ensures 191 < Two(c)[0] < 224 && TwoValue(Two(c)[0], Two(c)[1]) == c
  {
  }

  lemma ThreeInverse(c: nat)
    requires 0x800 <= c < 0x1_0000
    ensures 224 <= Three(c)[0] <= 239 && ThreeValue(Three(c)[0], Three(c)[1], Three(c)[2]) == c
  {
    var a, m, d := c / 0x40 / 0x40, c / 0x40 % 0x40, c % 0x40;
    assert c / 0x1000 == a;
    DivUnique(224 + a, 16, 14, a);
    DivUnique(128 + m, 64, 2, m);
    DivUnique(128 + d, 64, 2, d);
  }

  /** Forms of two and three bytes that are longer than need be are read like the shortest one, and a
      byte that continues no sequence starts one of three. */
  lemma LenientRead(c: nat, t: byte, b1: byte, b2: byte)
    ensures c < 0x800 ==> Decode([0xC0 + c / 0x40, 0x80 + c % 0x40], 0, 2) == [c]
    ensures c < 0x1_0000 ==> Decode([0xE0 + c / 0x1000, 0x80 + c / 0x40 % 0x40, 0x80 + c % 0x40], 0, 3) == [c]
    ensures 0x80 <= t < 0xC0 ==> Decode([t, b1, b2], 0, 3) == Decode([0xE0 + t % 0x10, b1, b2], 0, 3)
  {
    if c < 0x800 {
      var b: bytes := [0xC0 + c / 0x40, 0x80 + c % 0x40];
      DivUnique(b[0], 0x20, 6, c / 0x40);
      DivUnique(b[1], 0x40, 2, c % 0x40);
      assert ReadTurn(b, 0) == Turn([c], 2);
      OneTurn(b);
    }
    if c < 0x1_0000 {
      var b: bytes := [0xE0 + c / 0x1000, 0x80 + c / 0x40 % 0x40, 0x80 + c % 0x40];
      assert c / 0x40 / 0x40 == c / 0x1000;
      DivUnique(b[0], 0x10, 14, c / 0x1000);
      DivUnique(b[1], 0x40, 2, c / 0x40 % 0x40);
      DivUnique(b[2], 0x40, 2, c % 0x40);
      assert ReadTurn(b, 0) == Turn([c], 3);
      OneTurn(b);
    }
    if 0x80 <= t < 0xC0 {
      StrayTurn(t, b1, b2);
      OneTurn([t, b1, b2]);
      OneTurn([0xE0 + t % 0x10, b1, b2]);
    }
  }

  lemma OneTurn(b: bytes)
    requires b != [] && ReadTurn(b, 0).next == |b|
    ensures Decode(b, 0, |b|) == ReadTurn(b, 0).units
  {
    hide ReadTurn;
  }

  lemma StrayTurn(t: byte, b1: byte, b2: byte)
    requires 0x80 <= t < 0xC0
    ensures ReadTurn([t, b1, b2], 0) == ReadTurn([0xE0 + t % 0x10, b1, b2], 0)
    ensures ReadTurn([t, b1, b2], 0).next == 3
  {
    DivUnique(0xE0 + t % 0x10, 0x10, 14, t % 0x10);
  }

  lemma FourInverse(high: unit16, low: unit16)
    requires High(high) && Low(low)
    ensures var b := Four(Joined(high, low)); var c := FourValue(b[0], b[1], b[2], b[3]) - 0x1_0000;
      && 239 < b[0] && 0xD800 + c / 0x400 == high && 0xDC00 + c % 0x400 == low
  {
    FourDigits(Joined(high, low));
    Parts(high - 0xD800, low - 0xDC00);
  }

  lemma Parts(h: nat, l: nat)
    requires l < 0x400
    ensures (h * 0x400 + l) / 0x400 == h && (h * 0x400 + l) % 0x400 == l
  {
  }

  lemma FourDigits(c: nat)
    requires c < 0x11_0000
    ensures FourValue(Four(c)[0], Four(c)[1], Four(c)[2], Four(c)[3]) == c
  {
    SixBitDigits(c);
    SixBits(c / 0x1000);
    SixBits(c / 0x40);
    SixBits(c);
    assert (c / 0x4_0000 + 0xF0) % 8 == c / 0x4_0000;
  }

  lemma SixBits(x: nat)
    ensures (x % 0x40 + 0x80) % 0x40 == x % 0x40
  {
  }

  lemma SixBitDigits(c: nat)
    requires c < 0x11_0000
    ensures c / 0x4_0000 <= 4
    ensures c == c / 0x4_0000 * 0x4_0000 + c / 0x1000 % 0x40 * 0x1000 + c / 0x40 % 0x40 * 0x40 + c % 0x40
  {
    assert c / 0x1000 == c / 0x40 / 0x40;
    assert c / 0x4_0000 == c / 0x1000 / 0x40;
  }

  /** One turn of the loop reads back one character. */
  lemma TurnInverse(s: Units, i: nat, b: bytes, pos: nat)
    requires i < |s| && At(b, pos, Char(s, i))
    ensures pos < |b| && ReadTurn(b, pos) == Turn(s[i..i + Width(s, i)], pos + |Char(s, i)|)
  {
    hide At, TwoValue, ThreeValue, FourValue, Two, Three, Four;
    var c := Char(s, i);
    AtBound(b, pos, c);
    AtIndex(b, pos, c, 0);
    if s[i] < 0x80 {
    } else if s[i] < 0x800 {
      TwoInverse(s[i]);
      AtIndex(b, pos, c, 1);
    } else {
      AtIndex(b, pos, c, 1);
      AtIndex(b, pos, c, 2);
      if PairAt(s, i) {
        AtIndex(b, pos, c, 3);
        FourInverse(s[i], s[i + 1]);
        LeadByte(Joined(s[i], s[i + 1]));
        assert s[i..i + 2] == [s[i], s[i + 1]];
      } else {
        ThreeInverse(s[i]);
      }
    }
  }

  lemma LeadByte(c: nat)
    requires c < 0x11_0000
    ensures 239 < Four(c)[0] < 365
  {
  }

  /** The decoding loop inverts the encoder on every sequence of code units. */
  lemma {:induction false} DecodeInverse(s: Units, i: nat, b: bytes, pos: nat)
    requires i <= |s| && At(b, pos, EncodeFrom(s, i))
    ensures Decode(b, pos, pos + |EncodeFrom(s, i)|) == s[i..]
    decreases |s| - i
  {
    hide At, Char, ReadTurn;
    AtBound(b, pos, EncodeFrom(s, i));
    if i < |s| {
      var j := i + Width(s, i);
      AtConcat(b, pos, Char(s, i), EncodeFrom(s, j));
      TurnInverse(s, i, b, pos);
      DecodeInverse(s, j, b, pos + |Char(s, i)|);
      assert s[i..] == s[i..j] + s[j..];
    }
  }

  // ---- the chunk buffer ----

  /** `chunk[i++] = u` for each of `us`. */
  function Store(chunk: Units, i: nat, us: Units): (r: Units)
    requires i <= |chunk|
    ensures |r| == if i + |us| <= |chunk| then |chunk| else i + |us|
    ensures r[..i + |us|] == chunk[..i] + us
  {
    chunk[..i] + us + (if i + |us| <= |chunk| then chunk[i + |us|..] else [])
  }

  /** The reading loop from `start` on: `parts` joined so far, the chunk and its fill. */
  function ReadFrom(b: bytes, start: nat, end: nat, parts: Units, chunk: Units, i: nat): Units
    requires end <= |b| && i <= |chunk|
    decreases end - start
  {
    if start >= end then parts + chunk[..i]
    else
      var turn := ReadTurn(b, start);
      var stored := Store(chunk, i, turn.units);
      var n := i + |turn.units|;
      if n > CHUNK then ReadFrom(b, turn.next, end, parts + stored, stored, 0)
      else ReadFrom(b, turn.next, end, parts, stored, n)
  }

  function Read(b: bytes, start: nat, end: nat): Units
    requires end <= |b|
  {
    ReadFrom(b, start, end, [], [], 0)
  }

  /** The fill of the chunk at each flush while reading the units from `j` on. */
  function Flushes(s: Units, j: nat, i: nat): seq<nat>
    requires j <= |s|
    decreases |s| - j
  {
    if j == |s| then []
    else
      var n := i + Width(s, j);
      if n > CHUNK then [n] + Flushes(s, j + Width(s, j), 0) else Flushes(s, j + Width(s, j), n)
  }

  /** No flush is shorter than an earlier one: a surrogate pair that straddles a chunk border
      makes a flush of 8193 units, and none of 8192 may follow it. */
  ghost predicate Faithful(s: Units) {
    var f := Flushes(s, 0, 0);
    forall x, y | 0 <= x < y < |f| :: f[x] <= f[y]
  }

  /** The same condition along the run, with `m` the length of the chunk array. */
  ghost predicate Clean(s: Units, j: nat, i: nat, m: nat)
    requires j <= |s|
    decreases |s| - j
  {
    j == |s| ||
    var n := i + Width(s, j);
    if n > CHUNK then n >= m && Clean(s, j + Width(s, j), 0, n)
    else Clean(s, j + Width(s, j), n, if n > m then n else m)
  }

  /** What is known of the string read from a state that still has the units from `j` on to
      read: it is at least as long as it should be, and right exactly when the run is clean. */
  ghost predicate Exact(r: Units, s: Units, j: nat, parts: Units, chunk: Units, i: nat)
    requires j <= |s| && i <= |chunk|
  {
    var right := parts + chunk[..i] + s[j..];
    if Clean(s, j, i, |chunk|) then r == right else |r| > |right|
  }

  lemma {:induction false} ReadFromExact(s: Units, j: nat, b: bytes, pos: nat, parts: Units, chunk: Units, i: nat)
    requires j <= |s| && At(b, pos, EncodeFrom(s, j)) && i <= |chunk|
    ensures pos + |EncodeFrom(s, j)| <= |b|
    ensures Exact(ReadFrom(b, pos, pos + |EncodeFrom(s, j)|, parts, chunk, i), s, j, parts, chunk, i)
    decreases |s| - j
  {
    hide At, Char, ReadTurn, Exact, Store;
    AtBound(b, pos, EncodeFrom(s, j));
    if j == |s| {
      Done(s, parts, chunk, i);
    } else {
      var k := j + Width(s, j);
      AtConcat(b, pos, Char(s, j), EncodeFrom(s, k));
      TurnInverse(s, j, b, pos);
      var stored := Store(chunk, i, s[j..k]);
      var next := pos + |Char(s, j)|;
      if i + (k - j) > CHUNK {
        ReadFromExact(s, k, b, next, parts + stored, stored, 0);
        FlushExact(ReadFrom(b, next, pos + |EncodeFrom(s, j)|, parts + stored, stored, 0), s, j, parts, chunk, i);
      } else {
        ReadFromExact(s, k, b, next, parts, stored, i + (k - j));
        FillExact(ReadFrom(b, next, pos + |EncodeFrom(s, j)|, parts, stored, i + (k - j)), s, j, parts, chunk, i);
      }
    }
  }

  lemma Done(s: Units, parts: Units, chunk: Units, i: nat)
    requires i <= |chunk|
    ensures Exact(parts + chunk[..i], s, |s|, parts, chunk, i)
  {
    assert s[|s|..] == [];
    assert parts + chunk[..i] + [] == parts + chunk[..i];
  }

  lemma FillExact(r: Units, s: Units, j: nat, parts: Units, chunk: Units, i: nat)
    requires j < |s| && i <= |chunk| && i + Width(s, j) <= CHUNK
    requires Exact(r, s, j + Width(s, j), parts, Store(chunk, i, s[j..j + Width(s, j)]), i + Width(s, j))
    ensures Exact(r, s, j, parts, chunk, i)
  {
    var k := j + Width(s, j);
    var stored := Store(chunk, i, s[j..k]);
    assert parts + stored[..i + (k - j)] + s[k..] == parts + chunk[..i] + s[j..];
  }

  /** A flush joins the whole chunk array, so a longer array adds its stale tail. */
  lemma FlushExact(r: Units, s: Units, j: nat, parts: Units, chunk: Units, i: nat)
    requires j < |s| && i <= |chunk| && i + Width(s, j) > CHUNK
    requires var stored := Store(chunk, i, s[j..j + Width(s, j)]); Exact(r, s, j + Width(s, j), parts + stored, stored, 0)
    ensures Exact(r, s, j, parts, chunk, i)
  {
    var k := j + Width(s, j);
    var stored := Store(chunk, i, s[j..k]);
    var n := i + (k - j);
    if n >= |chunk| {
      assert stored == chunk[..i] + s[j..k];
      assert (parts + stored) + stored[..0] + s[k..] == parts + chunk[..i] + s[j..];
    } else {
      assert |stored| > n;
    }
  }

  /** `Clean` from the start of a string, seen on the flush sizes alone. */
  ghost predicate Rising(f: seq<nat>, m: nat) {
    f == [] || (f[0] >= m && Rising(f[1..], f[0]))
  }

  lemma {:induction false} FlushSizes(s: Units, j: nat, i: nat)
    requires j <= |s| && i <= CHUNK
    ensures forall x | 0 <= x < |Flushes(s, j, i)| :: CHUNK < Flushes(s, j, i)[x] <= CHUNK + 2
    decreases |s| - j
  {
    if j < |s| {
      var k := j + Width(s, j);
      var n := i + Width(s, j);
      if n > CHUNK {
        FlushSizes(s, k, 0);
      } else {
        FlushSizes(s, k, n);
      }
    }
  }

  lemma {:induction false} CleanRising(s: Units, j: nat, i: nat, m: nat)
    requires j <= |s| && i <= CHUNK
    ensures Clean(s, j, i, m) <==> Rising(Flushes(s, j, i), m)
    decreases |s| - j
  {
    if j < |s| {
      var k := j + Width(s, j);
      var n := i + Width(s, j);
      if n > CHUNK {
        CleanRising(s, k, 0, n);
        assert Flushes(s, j, i)[1..] == Flushes(s, k, 0);
      } else {
        CleanRising(s, k, n, if n > m then n else m);
        FlushSizes(s, k, n);
      }
    }
  }

  lemma {:induction false} RisingSorted(f: seq<nat>, m: nat)
    ensures Rising(f, m) <==> (forall x | 0 <= x < |f| :: f[x] >= m) && forall x, y | 0 <= x < y < |f| :: f[x] <= f[y]
  {
    if f != [] {
      RisingSorted(f[1..], f[0]);
      assert forall x | 0 < x < |f| :: f[x] == f[1..][x - 1];
      if Rising(f, m) {
        forall x, y | 0 <= x < y < |f|
          ensures f[x] <= f[y]
        {
          assert f[y] == f[1..][y - 1];
        }
      }
    }
  }

  /** `read` inverts `write` exactly on the faithful strings. */
  lemma ReadInverse(s: Units, b: bytes, pos: nat)
    requires At(b, pos, Encode(s))
    ensures pos + |Encode(s)| <= |b|
    ensures Read(b, pos, pos + |Encode(s)|) == s <==> Faithful(s)
  {
    hide At, ReadFrom, Clean, Flushes, EncodeFrom, Rising;
    ReadFromExact(s, 0, b, pos, [], [], 0);
    CleanRising(s, 0, 0, 0);
    RisingSorted(Flushes(s, 0, 0), 0);
    assert s[0..] == s && [] + [] + s == s;
  }

  /** Every string without surrogate pairs is faithful, whatever its length. */
  lemma PairFree(s: Units)
    requires forall x | 0 <= x < |s| :: !PairAt(s, x)
    ensures Faithful(s)
  {
    EvenFlushes(s, 0, 0);
  }

  lemma {:induction false} EvenFlushes(s: Units, j: nat, i: nat)
    requires j <= |s| && i <= CHUNK
    requires forall x | 0 <= x < |s| :: !PairAt(s, x)
    ensures forall x | 0 <= x < |Flushes(s, j, i)| :: Flushes(s, j, i)[x] == CHUNK + 1
    decreases |s| - j
  {
    if j < |s| {
      assert !PairAt(s, j);
      if i + 1 > CHUNK {
        EvenFlushes(s, j + 1, 0);
      } else {
        EvenFlushes(s, j + 1, i + 1);
      }
    }
  }

  function Total(f: seq<nat>): nat {
    if f == [] then 0 else f[0] + Total(f[1..])
  }

  lemma {:induction false} FlushTotal(s: Units, j: nat, i: nat)
    requires j <= |s|
    ensures Total(Flushes(s, j, i)) <= i + |s| - j
    decreases |s| - j
  {
    if j < |s| {
      var k := j + Width(s, j);
      var n := i + Width(s, j);
      if n > CHUNK {
        FlushTotal(s, k, 0);
        assert Flushes(s, j, i)[1..] == Flushes(s, k, 0);
      } else {
        FlushTotal(s, k, n);
      }
    }
  }

  /** Every string of at most 16384 units is faithful. */
  lemma ShortFaithful(s: Units)
    requires |s| <= 16384
    ensures Faithful(s)
  {
    var f := Flushes(s, 0, 0);
    FlushSizes(s, 0, 0);
    FlushTotal(s, 0, 0);
    TotalAtLeast(f);
    if |f| == 2 {
      assert f[1..] == [f[1]];
      assert Total(f) == f[0] + f[1];
    }
  }

  lemma {:induction false} TotalAtLeast(f: seq<nat>)
    requires forall x | 0 <= x < |f| :: f[x] > CHUNK
    ensures Total(f) >= 8192 * |f|
  {
    if f != [] {
      TotalAtLeast(f[1..]);
    }
  }

  lemma {:induction false} FillRun(s: Units, j: nat, i: nat, n: nat)
    requires j + n <= |s| && i + n <= CHUNK
    requires forall x | j <= x < j + n :: !PairAt(s, x)
    ensures Flushes(s, j, i) == Flushes(s, j + n, i + n)
    decreases n
  {
    if n > 0 {
      assert !PairAt(s, j);
      FillRun(s, j + 1, i + 1, n - 1);
    }
  }

  /** A surrogate pair across the border of the first chunk, then a full second chunk. */
  function Straddling(): Units {
    seq(8191, _ => 97) + [0xD83D, 0xDE00] + seq(8192, _ => 97)
  }

  lemma StraddlingFlushes(s: Units)
    requires |s| == 16385 && PairAt(s, 8191)
    requires forall x | 0 <= x < |s| && x != 8191 :: !PairAt(s, x)
    ensures Flushes(s, 0, 0) == [8193, 8192]
  {
    hide PairAt;
    FillRun(s, 0, 0, 8191);
    FillRun(s, 8193, 0, 8191);
    assert Flushes(s, 16384, 8191) == [8192] + Flushes(s, 16385, 0);
    assert Flushes(s, 8191, 8191) == [8193] + Flushes(s, 8193, 0);
  }

  /** A string that `read` gets wrong: it repeats the stale last unit of the first chunk. */
  lemma StaleUnit()
    ensures !Faithful(Straddling())
    ensures Read(Encode(Straddling()), 0, |Encode(Straddling())|) != Straddling()
  {
    hide Read, Encode, Flushes;
    var s := Straddling();
    StraddlingFlushes(s);
    assert Flushes(s, 0, 0)[0] == 8193 && Flushes(s, 0, 0)[1] == 8192;
    assert At(Encode(s), 0, Encode(s));
    ReadInverse(s, Encode(s), 0);
  }

  // ---- the three loops ----

  /** `(u & 0xFC00) === 0xD800` and `=== 0xDC00` look at the six high bits. */
  lemma SurrogateMask(u: unit16)
    ensures And(u, 0xFC00) == 0xD800 <==> High(u)
    ensures And(u, 0xFC00) == 0xDC00 <==> Low(u)
  {
    hide And;
    assert Pow2(6) == 64;
    AndSixteen(u, 0xFC0);
    AndSixteen(u / 16, 0xFC);
    AndFour(u / 16 / 16, 63);
    var h := u / 0x400;
    assert u / 16 / 16 / 4 == h < 64;
    AndMask(h, 6);
    assert And(u, 0xFC00) == 0x400 * h;
  }

  /** `x >> ... & 63 | 128`. */
  lemma Continuation(x: nat)
    ensures Or(And(x, 63), 128) == x % 0x40 + 0x80
  {
    assert Pow2(6) == 64;
    AndMask(x, 6);
    OrDisjoint(x % 64, 2, 6);
  }

  /** The leading bytes `c >> 6 | 192`, `c >> 12 | 224` and `c >> 18 | 240`. */
  lemma Leading(x: nat)
    ensures x < 0x20 ==> Or(x, 192) == x + 0xC0
    ensures x < 0x10 ==> Or(x, 224) == x + 0xE0
    ensures x < 8 ==> Or(x, 240) == x + 0xF0
  {
    assert Pow2(5) == 32 && Pow2(4) == 16 && Pow2(3) == 8;
    if x < 0x20 {
      OrDisjoint(x, 6, 5);
    }
    if x < 0x10 {
      OrDisjoint(x, 14, 4);
    }
    if x < 8 {
      OrDisjoint(x, 30, 3);
    }
  }

  method Length(s: Units) returns (len: nat)
    ensures len == |Encode(s)| == Sizes(CodePoints(s, 0))
  {
    hide And, Layout, CodePoints, Sizes;
    EncodeLayout(s, 0);
    len := 0;
    var i := 0;
    while i < |s|
      invariant i <= |s|
      invariant len + |EncodeFrom(s, i)| == |Encode(s)|
    {
      var c := s[i];
      SurrogateMask(c);
      if i + 1 < |s| {
        SurrogateMask(s[i + 1]);
      }
      if c < 128 {
        len := len + 1;
      } else if c < 2048 {
        len := len + 2;
      } else if And(c, 0xFC00) == 0xD800 && i + 1 < |s| && And(s[i + 1], 0xFC00) == 0xDC00 {
        i := i + 1;
        len := len + 4;
      } else {
        len := len + 3;
      }
      i := i + 1;
    }
  }

  /** The body of the writing loop for the character at `i`. */
  method WriteChar(s: Units, i: nat, buffer: array<byte>, offset: nat, ghost was: bytes, ghost start: nat, ghost done: bytes)
    returns (next: nat, end: nat)
    requires i < |s|
    requires Filled(buffer[..], was, start, done) && offset == start + |done|
    requires offset + |Char(s, i)| <= |was|
    modifies buffer
    ensures next == i + Width(s, i) && end == offset + |Char(s, i)|
    ensures Filled(buffer[..], was, start, done + Char(s, i))
  {
    hide And, Or, Filled;
    var c1 := s[i];
    SurrogateMask(c1);
    if i + 1 < |s| {
      SurrogateMask(s[i + 1]);
    }
    next := i;
    if c1 < 128 {
      Put(buffer, offset, c1, was, start, done);
      end := offset + 1;
    } else if c1 < 2048 {
      Leading(c1 / 0x40);
      Continuation(c1);
      Put(buffer, offset, Or(c1 / 0x40, 192), was, start, done);
      Put(buffer, offset + 1, Or(And(c1, 63), 128), was, start, done + [c1 / 0x40 + 0xC0]);
      assert done + Two(c1) == done + [c1 / 0x40 + 0xC0] + [c1 % 0x40 + 0x80];
      end := offset + 2;
    } else if And(c1, 0xFC00) == 0xD800 && i + 1 < |s| && And(s[i + 1], 0xFC00) == 0xDC00 {
      var c2 := s[i + 1];
      LowTen(c1, c2);
      var c: nat := 0x1_0000 + And(c1, 0x3FF) * 0x400 + And(c2, 0x3FF);
      next := next + 1;
      WriteFour(c, buffer, offset, was, start, done);
      end := offset + 4;
    } else {
      WriteThree(c1, buffer, offset, was, start, done);
      end := offset + 3;
    }
    next := next + 1;
  }

  lemma LowTen(high: unit16, low: unit16)
    requires High(high) && Low(low)
    ensures And(high, 0x3FF) == high - 0xD800 && And(low, 0x3FF) == low - 0xDC00
  {
    hide And;
    assert Pow2(10) == 0x400;
    AndMask(high, 10);
    AndMask(low, 10);
  }

  method WriteThree(c: nat, buffer: array<byte>, offset: nat, ghost was: bytes, ghost start: nat, ghost done: bytes)
    requires c < 0x1_0000
    requires Filled(buffer[..], was, start, done) && offset == start + |done| && offset + 3 <= |was|
    modifies buffer
    ensures Filled(buffer[..], was, start, done + Three(c))
  {
    hide And, Or, Filled;
    var b := Three(c);
    Leading(c / 0x1000);
    Continuation(c / 0x40);
    Continuation(c);
    Put(buffer, offset, Or(c / 0x1000, 224), was, start, done);
    Put(buffer, offset + 1, Or(And(c / 0x40, 63), 128), was, start, done + [b[0]]);
    Put(buffer, offset + 2, Or(And(c, 63), 128), was, start, done + [b[0]] + [b[1]]);
    assert done + b == done + [b[0]] + [b[1]] + [b[2]];
  }

  method WriteFour(c: nat, buffer: array<byte>, offset: nat, ghost was: bytes, ghost start: nat, ghost done: bytes)
    requires c < 0x11_0000
    requires Filled(buffer[..], was, start, done) && offset == start + |done| && offset + 4 <= |was|
    modifies buffer
    ensures Filled(buffer[..], was, start, done + Four(c))
  {
    hide And, Or, Filled;
    var b := Four(c);
    Leading(c / 0x4_0000);
    Continuation(c / 0x1000);
    Continuation(c / 0x40);
    Continuation(c);
    Put(buffer, offset, Or(c / 0x4_0000, 240), was, start, done);
    Put(buffer, offset + 1, Or(And(c / 0x1000, 63), 128), was, start, done + [b[0]]);
    Put(buffer, offset + 2, Or(And(c / 0x40, 63), 128), was, start, done + [b[0]] + [b[1]]);
    Put(buffer, offset + 3, Or(And(c, 63), 128), was, start, done + [b[0]] + [b[1]] + [b[2]]);
    assert done + b == done + [b[0]] + [b[1]] + [b[2]] + [b[3]];
  }

  /** Writes the bytes of a string at `offset` and nothing else. */
  method Write(s: Units, buffer: array<byte>, offset: nat) returns (n: nat)
    requires offset + |Encode(s)| <= buffer.Length
    modifies buffer
    ensures n == |Encode(s)|
    ensures Filled(buffer[..], old(buffer[..]), offset, Encode(s)) && Layout(CodePoints(s, 0), Encode(s))
  {
    hide Layout, CodePoints, Block, Char, Sizes;
    EncodeLayout(s, 0);
    ghost var was := buffer[..];
    ghost var done: bytes := [];
    FilledNone(was, offset);
    var pos := offset;
    var i := 0;
    while i < |s|
      invariant i <= |s|
      invariant Filled(buffer[..], was, offset, done) && pos == offset + |done|
      invariant done + EncodeFrom(s, i) == Encode(s)
    {
      ghost var one := Char(s, i);
      ghost var rest := EncodeFrom(s, i + Width(s, i));
      assert done + (one + rest) == (done + one) + rest;
      i, pos := WriteChar(s, i, buffer, pos, was, offset, done);
      done := done + one;
    }
    assert done + [] == done;
    n := pos - offset;
  }

  function Join(parts: seq<Units>): Units {
    if parts == [] then [] else Join(parts[..|parts| - 1]) + parts[|parts| - 1]
  }

  lemma JoinPush(parts: seq<Units>, p: Units)
    ensures Join(parts + [p]) == Join(parts) + p
  {
    assert (parts + [p])[..|parts|] == parts;
  }

  /** `chunk[i] = u`. */
  function Poke(chunk: Units, i: nat, u: unit16): (r: Units)
    requires i <= |chunk|
    ensures |r| == if i < |chunk| then |chunk| else i + 1
  {
    if i < |chunk| then chunk[i := u] else chunk + [u]
  }

  lemma PokeStore(chunk: Units, i: nat, u: unit16, v: unit16)
    requires i <= |chunk|
    ensures Poke(chunk, i, u) == Store(chunk, i, [u])
    ensures Poke(Poke(chunk, i, u), i + 1, v) == Store(chunk, i, [u, v])
  {
  }

  /** The bit operators of one turn of the reading loop. */
  lemma TurnBits(t: byte, b1: byte, b2: byte, b3: byte)
    ensures Or(And(t, 31) * 0x40, And(b1, 63)) == TwoValue(t, b1)
    ensures Or(Or(And(t, 15) * 0x1000, And(b1, 63) * 0x40), And(b2, 63)) == ThreeValue(t, b1, b2)
    ensures Or(Or(Or(And(t, 7) * 0x4_0000, And(b1, 63) * 0x1000), And(b2, 63) * 0x40), And(b3, 63)) == FourValue(t, b1, b2, b3)
  {
    hide Or, And, Pow2;
    TurnMasks(t, b1, b2, b3);
    TurnFields(t, b1 % 0x40, b2 % 0x40, b3 % 0x40);
  }

  lemma TurnMasks(t: byte, b1: byte, b2: byte, b3: byte)
    ensures And(t, 31) == t % 32 && And(t, 15) == t % 16 && And(t, 7) == t % 8
    ensures And(b1, 63) == b1 % 64 && And(b2, 63) == b2 % 64 && And(b3, 63) == b3 % 64
  {
    hide And, Pow2;
    PowTable();
    AndMask(t, 3);
    AndMask(t, 4);
    AndMask(t, 5);
    AndMask(b1, 6);
    AndMask(b2, 6);
    AndMask(b3, 6);
  }

  lemma TurnFields(t: byte, f1: nat, f2: nat, f3: nat)
    requires f1 < 0x40 && f2 < 0x40 && f3 < 0x40
    ensures Or(t % 32 * 0x40, f1) == t % 32 * 0x40 + f1
    ensures Or(Or(t % 16 * 0x1000, f1 * 0x40), f2) == t % 16 * 0x1000 + f1 * 0x40 + f2
    ensures Or(Or(Or(t % 8 * 0x4_0000, f1 * 0x1000), f2 * 0x40), f3) == t % 8 * 0x4_0000 + f1 * 0x1000 + f2 * 0x40 + f3
  {
    hide Or, Pow2;
    PowTable();
    OrFields(t % 32, f1, 6);
    OrFields(t % 16, f1 * 0x40, 12);
    OrFields(t % 16 * 0x40 + f1, f2, 6);
    OrFields(t % 8, f1 * 0x1000, 18);
    OrFields(t % 8 * 0x40 + f1, f2 * 0x40, 12);
    OrFields(t % 8 * 0x1000 + f1 * 0x40 + f2, f3, 6);
  }

  lemma PowTable()
    ensures Pow2(3) == 8 && Pow2(4) == 16 && Pow2(5) == 32 && Pow2(6) == 0x40 && Pow2(12) == 0x1000 && Pow2(18) == 0x4_0000
  {
  }

  lemma OrFields(b: nat, a: nat, k: nat)
    requires a < Pow2(k)
    ensures Or(b * Pow2(k), a) == b * Pow2(k) + a
  {
    OrDisjoint(a, b, k);
    OrCommutes(a, b * Pow2(k));
  }

  /** The body of the reading loop, up to the flush. */
  method ReadOne(buffer: bytes, at: nat, before: Units, fill: nat) returns (chunk: Units, i: nat, next: nat)
    requires at < |buffer| && fill <= |before|
    ensures chunk == Store(before, fill, ReadTurn(buffer, at).units)
    ensures i == fill + |ReadTurn(buffer, at).units| && next == ReadTurn(buffer, at).next
  {
    hide Store, And, Or, TwoValue, ThreeValue, FourValue, HighHalf, LowHalf;
    var t := buffer[at];
    var b1, b2, b3 := ByteAt(buffer, at + 1), ByteAt(buffer, at + 2), ByteAt(buffer, at + 3);
    TurnBits(t, b1, b2, b3);
    if t < 128 {
      PokeStore(before, fill, t, 0);
      chunk, i, next := Poke(before, fill, t), fill + 1, at + 1;
    } else if t > 191 && t < 224 {
      var u := Or(And(t, 31) * 0x40, And(b1, 63));
      PokeStore(before, fill, u, 0);
      chunk, i, next := Poke(before, fill, u), fill + 1, at + 2;
    } else if t > 239 && t < 365 {
      var c: int := Or(Or(Or(And(t, 7) * 0x4_0000, And(b1, 63) * 0x1000), And(b2, 63) * 0x40), And(b3, 63)) - 0x1_0000;
      PokeStore(before, fill, HighHalf(c), LowHalf(c));
      chunk := Poke(Poke(before, fill, HighHalf(c)), fill + 1, LowHalf(c));
      i, next := fill + 2, at + 4;
    } else {
      var u := Or(Or(And(t, 15) * 0x1000, And(b1, 63) * 0x40), And(b2, 63));
      PokeStore(before, fill, u, 0);
      chunk, i, next := Poke(before, fill, u), fill + 1, at + 3;
    }
  }

  /** The reading method, chunk buffer and all. */
  method ReadString(buffer: bytes, start: nat, end: nat) returns (r: Units)
    requires end <= |buffer|
    ensures r == Read(buffer, start, end)
  {
    hide Store, ReadTurn;
    if end < start + 1 {
      return [];
    }
    var parts: seq<Units>, chunk: Units, i: nat, at: nat := [], [], 0, start;
    while at < end
      invariant 0 <= i <= |chunk|
      invariant Read(buffer, start, end) == ReadFrom(buffer, at, end, Join(parts), chunk, i)
      decreases end - at
    {
      chunk, i, at := ReadOne(buffer, at, chunk, i);
      if i > 8191 {
        JoinPush(parts, chunk);
        parts := parts + [chunk];
        i := 0;
      }
    }
    if parts != [] {
      if i != 0 {
        JoinPush(parts, chunk[..i]);
        parts := parts + [chunk[..i]];
      } else {
        assert Join(parts) + chunk[..0] == Join(parts);
      }
      return Join(parts);
    }
    assert Join(parts) + chunk[..i] == chunk[..i];
    return chunk[..i];
  }
}
