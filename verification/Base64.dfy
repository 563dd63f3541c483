/** Base 64 (section 4 of RFC 4648) as a pair of streaming state machines. Strings are
    sequences of character codes. */
module Base64 {
  import opened Wrappers
  import opened Bits
  import opened Varints
  import opened Buffers
  import Strings

  const PAD: byte := 61

  /** The alphabet: A-Z, a-z, 0-9, + and /. */
  function Symbol(i: nat): (c: byte)
    requires i < 64
    ensures c != PAD
  {
    if i < 26 then i + 65 else if i < 52 then i + 71 else if i < 62 then i - 4 else if i == 62 then 43 else 47
  }

  function Digit(c: nat): (d: Option<nat>)
    ensures d.Some? ==> d.value < 64
  {
    if 65 <= c <= 90 then Some(c - 65)
    else if 97 <= c <= 122 then Some(c - 71)
    else if 48 <= c <= 57 then Some(c + 4)
    else if c == 43 then Some(62)
    else if c == 47 then Some(63)
    else None
  }

  /** RFC 4648: three bytes make four symbols; one or two last bytes are padded. */
  function Encode(b: bytes): bytes {
    if |b| == 0 then []
    else if |b| == 1 then [Symbol(b[0] / 4), Symbol(b[0] % 4 * 16), PAD, PAD]
    else if |b| == 2 then [Symbol(b[0] / 4), Symbol(b[0] % 4 * 16 + b[1] / 16), Symbol(b[1] % 16 * 4), PAD]
    else Quad(b[0], b[1], b[2]) + Encode(b[3..])
  }

  function Quad(x: byte, y: byte, z: byte): (q: bytes)
    ensures |q| == 4
  {
    [Symbol(x / 4), Symbol(x % 4 * 16 + y / 16), Symbol(y % 16 * 4 + z / 64), Symbol(z % 64)]
  }

  /** What the decoding loop writes from position `i` on, in state `j` with `t` pending. */
  function DecodeFrom(s: bytes, i: nat, j: nat, t: nat): Option<bytes>
    requires i <= |s| && j <= 3 && t < 64
    decreases |s| - i
  {
    if i == |s| then if j == 1 then None else Some([])
    else if s[i] == PAD && j > 1 then Some([])
    else
      match Digit(s[i])
      case None => None
      case Some(c) =>
        match DecodeFrom(s, i + 1, (j + 1) % 4, c)
        case None => None
        case Some(rest) => Some(Emit(j, t, c) + rest)
  }

  /** The byte that a digit completes. */
  function Emit(j: nat, t: nat, c: nat): bytes
    requires j <= 3 && t < 64 && c < 64
  {
    if j == 0 then []
    else if j == 1 then [t * 4 + c / 16]
    else if j == 2 then [t % 16 * 16 + c / 4]
    else [t % 4 * 64 + c]
  }

  lemma DigitSymbol(i: nat)
    requires i < 64
    ensures Digit(Symbol(i)) == Some(i)
  {
  }

  lemma DecodeStep(s: bytes, i: nat, j: nat, t: nat, c: nat, rest: bytes)
    requires i < |s| && j <= 3 && t < 64 && c < 64 && s[i] == Symbol(c)
    requires DecodeFrom(s, i + 1, (j + 1) % 4, c) == Some(rest)
    ensures DecodeFrom(s, i, j, t) == Some(Emit(j, t, c) + rest)
  {
    DigitSymbol(c);
  }

  lemma DecodePad(s: bytes, i: nat, j: nat, t: nat)
    requires i < |s| && 1 < j <= 3 && t < 64 && s[i] == PAD
    ensures DecodeFrom(s, i, j, t) == Some([])
  {
  }

  lemma {:induction false} DecodeInverse(s: bytes, i: nat, b: bytes, t: nat)
    requires At(s, i, Encode(b)) && i + |Encode(b)| == |s| && t < 64
    ensures DecodeFrom(s, i, 0, t) == Some(b)
    decreases |b|
  {
    hide At, DecodeFrom, Symbol, Digit, Emit;
    if |b| == 0 {
      DecodeEnd(s, i, t);
    } else {
      var e := Encode(b);
      AtBound(s, i, e);
      AtIndex(s, i, e, 0);
      AtIndex(s, i, e, 1);
      AtIndex(s, i, e, 2);
      AtIndex(s, i, e, 3);
      var c0 := b[0] / 4;
      if |b| == 1 {
        var c1 := b[0] % 4 * 16;
        EmitOne(t, b[0], 0);
        DecodePad(s, i + 2, 2, c1);
        DecodeStep(s, i + 1, 1, c0, c1, []);
        DecodeStep(s, i, 0, t, c0, [b[0]] + []);
        assert [] + ([b[0]] + []) == b;
      } else {
        var c1 := b[0] % 4 * 16 + b[1] / 16;
        if |b| == 2 {
          var c2 := b[1] % 16 * 4;
          EmitOne(t, b[0], b[1]);
          QuadEmits(b[0], b[1], 0);
          DecodePad(s, i + 3, 3, c2);
          DecodeStep(s, i + 2, 2, c1, c2, []);
          DecodeStep(s, i + 1, 1, c0, c1, [b[1]] + []);
          DecodeStep(s, i, 0, t, c0, [b[0]] + ([b[1]] + []));
          assert [] + ([b[0]] + ([b[1]] + [])) == b;
        } else {
          AtConcat(s, i, Quad(b[0], b[1], b[2]), Encode(b[3..]));
          DecodeInverse(s, i + 4, b[3..], b[2] % 64);
          DecodeQuad(s, i, b, t);
        }
      }
    }
  }

  lemma DecodeQuad(s: bytes, i: nat, b: bytes, t: nat)
    requires |b| >= 3 && i + 4 <= |s| && t < 64
    requires s[i] == Quad(b[0], b[1], b[2])[0] && s[i + 1] == Quad(b[0], b[1], b[2])[1]
    requires s[i + 2] == Quad(b[0], b[1], b[2])[2] && s[i + 3] == Quad(b[0], b[1], b[2])[3]
    requires DecodeFrom(s, i + 4, 0, b[2] % 64) == Some(b[3..])
    ensures DecodeFrom(s, i, 0, t) == Some(b)
  {
    hide DecodeFrom, Symbol, Emit;
    var rest := b[3..];
    var c0, c1, c2, c3 := b[0] / 4, b[0] % 4 * 16 + b[1] / 16, b[1] % 16 * 4 + b[2] / 64, b[2] % 64;
    QuadEmits(b[0], b[1], b[2]);
    DecodeStep(s, i + 3, 3, c2, c3, rest);
    DecodeStep(s, i + 2, 2, c1, c2, [b[2]] + rest);
    DecodeStep(s, i + 1, 1, c0, c1, [b[1]] + ([b[2]] + rest));
    DecodeStep(s, i, 0, t, c0, [b[0]] + ([b[1]] + ([b[2]] + rest)));
    EmitOne(t, b[0], b[1]);
    assert [] + ([b[0]] + ([b[1]] + ([b[2]] + rest))) == b;
  }

  lemma EmitOne(t: nat, x: byte, y: byte)
    requires t < 64
    ensures Emit(0, t, x / 4) == []
    ensures Emit(1, x / 4, x % 4 * 16 + y / 16) == [x]
  {
  }

  lemma DecodeEnd(s: bytes, i: nat, t: nat)
    requires i == |s| && t < 64
    ensures DecodeFrom(s, i, 0, t) == Some([])
  {
  }

  lemma QuadEmits(x: byte, y: byte, z: byte)
    ensures Emit(1, x / 4, x % 4 * 16 + y / 16) == [x]
    ensures Emit(2, x % 4 * 16 + y / 16, y % 16 * 4 + z / 64) == [y]
    ensures Emit(3, y % 16 * 4 + z / 64, z % 64) == [z]
  {
    DivUnique(x % 4 * 16 + y / 16, 16, x % 4, y / 16);
    DivUnique(y % 16 * 4 + z / 64, 4, y % 16, z / 64);
  }

  /** `decode` inverts `encode`. */
  lemma RoundTrip(b: bytes)
    ensures DecodeFrom(Encode(b), 0, 0, 0) == Some(b)
  {
    DecodeInverse(Encode(b), 0, b, 0);
  }

  lemma {:induction false} EncodedSize(b: bytes)
    ensures |Encode(b)| == (|b| + 2) / 3 * 4
    decreases |b|
  {
    if |b| >= 3 {
      EncodedSize(b[3..]);
      DivUnique(|b| + 2, 3, (|b| - 1) / 3 + 1, (|b| - 1) % 3);
    }
  }

  // ---- what is accepted ----

  /** Where the digits that start at `i` end. */
  function DigitsEnd(s: bytes, i: nat): (k: nat)
    requires i <= |s|
    ensures i <= k <= |s|
    decreases |s| - i
  {
    if i == |s| || Digit(s[i]).None? then i else DigitsEnd(s, i + 1)
  }

  lemma NextState(i: nat)
    ensures (i + 1) % 4 == (i % 4 + 1) % 4
    ensures (i + 1) * 3 / 4 == i * 3 / 4 + (if i % 4 == 0 then 0 else 1)
  {
    var q, j := i / 4, i % 4;
    DivUnique(i * 3, 4, 3 * q + j * 3 / 4, j * 3 % 4);
    DivUnique((i + 1) * 3, 4, 3 * q + (j + 1) * 3 / 4, (j + 1) * 3 % 4);
  }

  /** Decoding fails if and only if the digits are cut off behind the first of a group, or something
      other than padding ends them, or padding does before the third of a group; whatever comes behind
      the first padding is ignored. Every four digits make three bytes. */
  lemma {:induction false} Accepts(s: bytes, i: nat, t: nat)
    requires i <= |s| && t < 64
    ensures var k := DigitsEnd(s, i);
      DecodeFrom(s, i, i % 4, t).Some? <==> if k == |s| then k % 4 != 1 else s[k] == '=' as int && k % 4 > 1
    ensures DecodeFrom(s, i, i % 4, t).Some? ==> |DecodeFrom(s, i, i % 4, t).value| == DigitsEnd(s, i) * 3 / 4 - i * 3 / 4
    decreases |s| - i
  {
    if i < |s| && Digit(s[i]).Some? {
      NextState(i);
      Accepts(s, i + 1, Digit(s[i]).value);
    }
  }

  // ---- the alphabet and the groups of RFC 4648, section 4 ----

  const ALPHABET := Strings.UPPER + Strings.LOWER + Strings.DIGITS + "+/"

  lemma AlphabetSize()
    ensures |ALPHABET| == 64
  {
    Strings.Letters(Strings.UPPER, Strings.LOWER);
    Strings.Digits(Strings.DIGITS);
  }

  /** The symbols are the characters of the alphabet, in its order. */
  lemma SymbolAlphabet(i: nat)
    requires i < 64
    ensures |ALPHABET| == 64 && Symbol(i) == ALPHABET[i] as int
  {
    Strings.Letters(Strings.UPPER, Strings.LOWER);
    Strings.Digits(Strings.DIGITS);
    AlphabetAt(Strings.UPPER, Strings.LOWER, Strings.DIGITS, i);
  }

  lemma AlphabetAt(u: string, l: string, d: string, i: nat)
    requires |u| == |l| == 26 && |d| == 10 && i < 64
    ensures (u + l + d + "+/")[i]
         == if i < 26 then u[i] else if i < 52 then l[i - 26] else if i < 62 then d[i - 52] else if i == 62 then '+' else '/'
  {
  }

  /** Only they are digits. */
  lemma DigitAlphabet(c: byte)
    ensures |ALPHABET| == 64
    ensures match Digit(c)
            case Some(i) => ALPHABET[i] as int == c
            case None => forall i | 0 <= i < 64 :: ALPHABET[i] as int != c
  {
    AlphabetSize();
    forall i | 0 <= i < 64
      ensures Digit(ALPHABET[i] as int) == Some(i)
    {
      SymbolAlphabet(i);
      DigitSymbol(i);
    }
    if Digit(c).Some? {
      SymbolAlphabet(Digit(c).value);
      assert Symbol(Digit(c).value) == c;
    }
  }

  /** The character for six bits. */
  function Character(d: nat): int
    requires d < 64
  {
    AlphabetSize();
    ALPHABET[d] as int
  }

  /** A group of up to three bytes is written as four characters of six bits each, highest first; what
      is missing of it counts as zeros, with padding in place of the characters that hold only these. */
  predicate Group(x: byte, y: byte, z: byte, size: nat, e: bytes) {
    var n: nat := (x as int) * 0x1_0000 + (y as int) * 0x100 + (z as int);
    && |e| >= 4
    && e[0] == Character(n / 0x4_0000)
    && e[1] == Character(n / 0x1000 % 64)
    && e[2] == (if size > 1 then Character(n / 64 % 64) else '=' as int)
    && e[3] == (if size > 2 then Character(n % 64) else '=' as int)
  }

  predicate Grouped(b: bytes, e: bytes)
    decreases |b|
  {
    if b == [] then e == []
    else
      var size := if |b| < 3 then |b| else 3;
      && |e| >= 4
      && Group(b[0], if size > 1 then b[1] else 0, if size > 2 then b[2] else 0, size, e)
      && Grouped(b[size..], e[4..])
  }

  lemma GroupDigits(x: int, y: int, z: int)
    requires 0 <= x < 256 && 0 <= y < 256 && 0 <= z < 256
    ensures var n := x * 0x1_0000 + y * 0x100 + z;
      n / 0x4_0000 == x / 4 && n / 0x1000 % 64 == x % 4 * 16 + y / 16 && n / 64 % 64 == y % 16 * 4 + z / 64 && n % 64 == z % 64
  {
    var n := x * 0x1_0000 + y * 0x100 + z;
    var d0, d1, d2, d3 := x / 4, x % 4 * 16 + y / 16, y % 16 * 4 + z / 64, z % 64;
    assert n == d0 * 0x4_0000 + d1 * 0x1000 + d2 * 64 + d3;
    DivUnique(n, 0x4_0000, d0, d1 * 0x1000 + d2 * 64 + d3);
    DivUnique(n, 0x1000, d0 * 64 + d1, d2 * 64 + d3);
    DivUnique(d0 * 64 + d1, 64, d0, d1);
    DivUnique(n, 64, (d0 * 64 + d1) * 64 + d2, d3);
    DivUnique((d0 * 64 + d1) * 64 + d2, 64, d0 * 64 + d1, d2);
  }

  lemma CharacterSymbol(d: nat)
    requires d < 64
    ensures Character(d) == Symbol(d)
  {
    SymbolAlphabet(d);
  }

  lemma GroupSymbols(x: byte, y: byte, z: byte, size: nat, e: bytes)
    requires |e| >= 4 && e[0] == Symbol(x / 4) && e[1] == Symbol(x % 4 * 16 + y / 16)
    requires e[2] == (if size > 1 then Symbol(y % 16 * 4 + z / 64) else PAD)
    requires e[3] == (if size > 2 then Symbol(z % 64) else PAD)
    ensures Group(x, y, z, size, e)
  {
    hide Symbol, Character;
    GroupDigits(x, y, z);
    CharacterSymbol(x / 4);
    CharacterSymbol(x % 4 * 16 + y / 16);
    CharacterSymbol(y % 16 * 4 + z / 64);
    CharacterSymbol(z % 64);
  }

  lemma WholeGroup(b: bytes)
    requires |b| >= 3
    ensures Encode(b) == Quad(b[0], b[1], b[2]) + Encode(b[3..])
  {
  }

  lemma FirstGroup(b: bytes, size: nat)
    requires b != [] && size == if |b| < 3 then |b| else 3
    ensures Group(b[0], if size > 1 then b[1] else 0, if size > 2 then b[2] else 0, size, Encode(b))
  {
    hide Symbol, Group, Encode;
    if size == 1 {
      TailOne(b);
      assert b[0] % 4 * 16 + 0 / 16 == b[0] % 4 * 16;
      GroupSymbols(b[0], 0, 0, size, Encode(b));
    } else if size == 2 {
      TailTwo(b);
      assert b[1] % 16 * 4 + 0 / 64 == b[1] % 16 * 4;
      GroupSymbols(b[0], b[1], 0, size, Encode(b));
    } else {
      WholeGroup(b);
      GroupSymbols(b[0], b[1], b[2], size, Encode(b));
    }
  }

  /** The encoder's output has these groups. */
  lemma {:induction false} EncodeGrouped(b: bytes)
    ensures Grouped(b, Encode(b))
    decreases |b|
  {
    hide Group, Symbol;
    if b != [] {
      var size := if |b| < 3 then |b| else 3;
      FirstGroup(b, size);
      EncodeTail(b, size);
      EncodeGrouped(b[size..]);
    }
  }

  lemma EncodeTail(b: bytes, size: nat)
    requires b != [] && size == if |b| < 3 then |b| else 3
    ensures |Encode(b)| >= 4 && Encode(b)[4..] == Encode(b[size..])
  {
    if size == 3 {
      var q := Quad(b[0], b[1], b[2]);
      assert (q + Encode(b[3..]))[4..] == Encode(b[3..]);
    }
  }

  /** Where the padding of an encoding starts. */
  lemma {:induction false} Padding(b: bytes)
    ensures var e := Encode(b); var n := |e|;
      && n >= |b|
      && (n > 0 ==> n >= 4 && (e[n - 1] == PAD <==> |b| % 3 != 0) && (e[n - 2] == PAD <==> |b| % 3 == 1))
    decreases |b|
  {
    hide Symbol;
    if |b| >= 3 {
      Padding(b[3..]);
      var rest := Encode(b[3..]);
      var q := Quad(b[0], b[1], b[2]);
      assert Encode(b) == q + rest;
      if rest == [] {
        EncodedSize(b[3..]);
        assert q + rest == q;
      } else {
        assert (q + rest)[|q + rest| - 1] == rest[|rest| - 1] && (q + rest)[|q + rest| - 2] == rest[|rest| - 2];
      }
    } else if |b| == 1 {
      TailOne(b);
    } else if |b| == 2 {
      TailTwo(b);
    }
  }

  /** The number of bytes in a string, by its length and up to two padding characters; a
      fraction when the length is no multiple of four. */
  method Length(s: bytes) returns (n: real)
    ensures s == [] ==> n == 0.0
    ensures forall b | s == Encode(b) :: n == |b| as real
  {
    hide Encode;
    var p: nat := |s|;
    if p == 0 {
      forall b | s == Encode(b)
        ensures b == []
      {
        EncodedSize(b);
      }
      return 0.0;
    }
    var pads := 0;
    p := p - 1;
    while p % 4 > 1 && s[p] == PAD
      invariant p < |s| && pads == |s| - 1 - p
      invariant forall k | p < k < |s| :: PadAt(s, k)
    {
      pads := pads + 1;
      p := p - 1;
    }
    n := (|s| * 3) as real / 4.0 - pads as real;
    forall b | s == Encode(b)
      ensures n == |b| as real
    {
      PadCount(b, pads);
      ThreeQuarters(|s|, |b|, pads);
    }
  }

  /** The loop goes on over this position. */
  ghost predicate PadAt(s: bytes, k: nat) {
    k < |s| && s[k] == PAD && k % 4 > 1
  }

  lemma ThreeQuarters(size: nat, n: nat, pads: nat)
    requires size * 3 == 4 * (n + pads)
    ensures (size * 3) as real / 4.0 - pads as real == n as real
  {
  }

  lemma PadCount(b: bytes, pads: nat)
    requires var e := Encode(b); var n := |e|;
      && n > pads
      && (forall k | n - pads <= k < n :: PadAt(e, k))
      && !PadAt(e, n - 1 - pads)
    ensures |Encode(b)| * 3 == 4 * (|b| + pads)
  {
    hide Encode;
    var e, n := Encode(b), |Encode(b)|;
    Padding(b);
    EncodedSize(b);
    var q := (|b| + 2) / 3;
    assert n == 4 * q && 3 * q == |b| + (if |b| % 3 == 0 then 0 else 3 - |b| % 3);
    FourBack(q);
    if |b| % 3 == 0 {
      assert !PadAt(e, n - 1);
      assert pads == 0;
    } else if |b| % 3 == 2 {
      assert PadAt(e, n - 1) && !PadAt(e, n - 2);
      assert pads == 1;
    } else {
      assert PadAt(e, n - 1) && PadAt(e, n - 2) && !PadAt(e, n - 3);
      assert pads == 2;
    }
  }

  lemma FourBack(q: nat)
    ensures (4 * q - 1) % 4 == 3 && (4 * q - 2) % 4 == 2 && (4 * q - 3) % 4 == 1
  {
    DivUnique(4 * q - 1, 4, q - 1, 3);
    DivUnique(4 * q - 2, 4, q - 1, 2);
    DivUnique(4 * q - 3, 4, q - 1, 1);
  }

  /** The encoding loop after `k` bytes in whole groups and `j` more: `t` waits for the rest. */
  ghost predicate Pending(s: bytes, t: nat, b: bytes, k: nat, j: nat) {
    && k + j <= |b| && j <= |s| && j <= 2 && t < 64
    && s[..|s| - j] + Encode(b[k..]) == Encode(b)
    && (j >= 1 ==> s[|s| - j] == Symbol(b[k] / 4))
    && (j == 1 ==> t == b[k] % 4 * 16)
    && (j == 2 ==> s[|s| - 1] == Symbol(b[k] % 4 * 16 + b[k + 1] / 16) && t == b[k + 1] % 16 * 4)
  }

  lemma PendingGroup(s: bytes, t: nat, b: bytes, k: nat, u: nat)
    requires Pending(s, t, b, k, 2) && k + 2 < |b| && u < 64
    ensures t % 4 == 0 && t + b[k + 2] / 64 < 64
    ensures Pending(s + [Symbol(t + b[k + 2] / 64)] + [Symbol(b[k + 2] % 64)], u, b, k + 3, 0)
  {
    hide Symbol;
    var more := [Symbol(t + b[k + 2] / 64)] + [Symbol(b[k + 2] % 64)];
    var q := Quad(b[k], b[k + 1], b[k + 2]);
    assert b[k..][3..] == b[k + 3..];
    assert Encode(b[k..]) == q + Encode(b[k + 3..]);
    assert s + more == s[..|s| - 2] + q;
    assert (s[..|s| - 2] + q) + Encode(b[k + 3..]) == s[..|s| - 2] + (q + Encode(b[k + 3..]));
    assert s + [Symbol(t + b[k + 2] / 64)] + [Symbol(b[k + 2] % 64)] == s + more;
  }

  lemma PendingNext(s: bytes, t: nat, b: bytes, k: nat, j: nat)
    requires Pending(s, t, b, k, j) && j < 2 && k + j < |b|
    ensures j == 0 ==> Pending(s + [Symbol(b[k] / 4)], b[k] % 4 * 16, b, k, 1)
    ensures j == 1 ==> t + b[k + 1] / 16 < 64 && Pending(s + [Symbol(t + b[k + 1] / 16)], b[k + 1] % 16 * 4, b, k, 2)
    ensures j == 1 ==> t % 16 == 0
  {
    hide Symbol, Encode;
  }

  lemma PendingStart(b: bytes)
    ensures Pending([], 0, b, 0, 0)
  {
    assert b[0..] == b;
    assert [][..0] + Encode(b) == Encode(b);
  }

  lemma PendingEnd(s: bytes, t: nat, b: bytes, k: nat, j: nat)
    requires Pending(s, t, b, k, j) && k + j == |b|
    ensures Encode(b) == if j == 0 then s else if j == 1 then s + [Symbol(t)] + [PAD] + [PAD] else s + [Symbol(t)] + [PAD]
  {
    hide Symbol, Encode;
    if j == 0 {
      EncodeNothing(b[k..]);
      assert s[..|s|] + [] == s;
    } else if j == 1 {
      hide Pending;
      EndOne(s, t, b, k);
    } else {
      hide Pending;
      PendingFew(s, t, b, k, j);
      EndTwo(s, t, b, k);
    }
  }

  lemma PendingFew(s: bytes, t: nat, b: bytes, k: nat, j: nat)
    requires Pending(s, t, b, k, j)
    ensures j <= 2
  {
  }

  lemma EndOne(s: bytes, t: nat, b: bytes, k: nat)
    requires Pending(s, t, b, k, 1) && k + 1 == |b|
    ensures Encode(b) == s + [Symbol(t)] + [PAD] + [PAD]
  {
    hide Symbol, Encode;
    var x := b[k];
    assert b[k..] == [x];
    TailOne([x]);
    assert s[|s| - 1..] == [Symbol(x / 4)];
    Rejoined(s, 1, [Symbol(t), PAD, PAD]);
  }

  lemma EndTwo(s: bytes, t: nat, b: bytes, k: nat)
    requires Pending(s, t, b, k, 2) && k + 2 == |b|
    ensures Encode(b) == s + [Symbol(t)] + [PAD]
  {
    hide Symbol, Encode;
    var x, y := b[k], b[k + 1];
    assert b[k..] == [x, y];
    TailTwo([x, y]);
    assert s[|s| - 2..] == [Symbol(x / 4), Symbol(x % 4 * 16 + y / 16)];
    Rejoined(s, 2, [Symbol(t), PAD]);
  }

  lemma Rejoined(s: bytes, j: nat, more: bytes)
    requires j <= |s|
    ensures s[..|s| - j] + (s[|s| - j..] + more) == s + more
  {
  }

  lemma EncodeNothing(b: bytes)
    requires b == []
    ensures Encode(b) == []
  {
  }

  lemma TailOne(b: bytes)
    requires |b| == 1
    ensures Encode(b) == [Symbol(b[0] / 4), Symbol(b[0] % 4 * 16), PAD, PAD]
  {
  }

  lemma TailTwo(b: bytes)
    requires |b| == 2
    ensures Encode(b) == [Symbol(b[0] / 4), Symbol(b[0] % 4 * 16 + b[1] / 16), Symbol(b[1] % 16 * 4), PAD]
  {
  }

  lemma SymbolBits(t: nat, b: byte)
    ensures And(b, 3) == b % 4 && And(b, 15) == b % 16 && And(b, 63) == b % 64
    ensures t % 16 == 0 ==> Or(t, b / 16) == t + b / 16
    ensures t % 4 == 0 ==> Or(t, b / 64) == t + b / 64
  {
    hide And, Or;
    assert Pow2(2) == 4 && Pow2(4) == 16 && Pow2(6) == 64;
    AndMask(b, 2);
    AndMask(b, 4);
    AndMask(b, 6);
    if t % 16 == 0 {
      OrDisjoint(b / 16, t / 16, 4);
      OrCommutes(b / 16, t);
    }
    if t % 4 == 0 {
      OrDisjoint(b / 64, t / 4, 2);
      OrCommutes(b / 64, t);
    }
  }

  /** Encodes the bytes from `start` to `end`. */
  method EncodeRange(buffer: bytes, start: nat, end: nat) returns (s: bytes)
    requires start <= end <= |buffer|
    ensures s == Encode(buffer[start..end]) && Grouped(buffer[start..end], s)
  {
    hide And, Or, Symbol, Pending, Encode, Grouped, Character;
    s := [];
    var j: nat, t: nat := 0, 0;
    var at := start;
    ghost var b := buffer[start..end];
    PendingStart(b);
    while at < end
      invariant start <= at <= end && j <= at - start && j <= 2 && t < 64
      invariant Pending(s, t, b, at - start - j, j)
    {
      var v := buffer[at];
      ghost var k := at - start - j;
      assert v == b[k + j];
      SymbolBits(t, v);
      at := at + 1;
      if j == 0 {
        PendingNext(s, t, b, k, 0);
        s := s + [Symbol(v / 4)];
        t := And(v, 3) * 16;
        j := 1;
      } else if j == 1 {
        PendingNext(s, t, b, k, 1);
        s := s + [Symbol(Or(t, v / 16))];
        t := And(v, 15) * 4;
        j := 2;
      } else {
        PendingGroup(s, t, b, k, t);
        s := s + [Symbol(Or(t, v / 64))];
        s := s + [Symbol(And(v, 63))];
        j := 0;
      }
    }
    PendingEnd(s, t, b, at - start - j, j);
    if j != 0 {
      s := s + [Symbol(t)];
      s := s + [PAD];
      if j == 1 {
        s := s + [PAD];
      }
    }
    EncodeGrouped(b);
  }

  /** Decodes into a buffer from `offset` on; `ok` is false where the source throws, and
      bytes past the end of the buffer are dropped as a typed array does. */
  method Decode(s: bytes, buffer: array<byte>, offset: nat) returns (ok: bool, n: nat)
    modifies buffer
    ensures ok == DecodeFrom(s, 0, 0, 0).Some?
    ensures ok ==> n == |DecodeFrom(s, 0, 0, 0).value|
    ensures ok && offset + n <= buffer.Length ==> Filled(buffer[..], old(buffer[..]), offset, DecodeFrom(s, 0, 0, 0).value)
  {
    hide And, Or, Filled, Digit, DecodeFrom, Emit, Split;
    ghost var was := buffer[..];
    ghost var done: bytes := [];
    if offset <= buffer.Length {
      FilledNone(was, offset);
    }
    var j: nat, t: nat := 0, 0;
    var i, pos := 0, offset;
    SplitStart(s);
    while i < |s|
      invariant i <= |s| && j <= 3 && t < 64
      invariant pos == offset + |done|
      invariant pos <= buffer.Length ==> Filled(buffer[..], was, offset, done)
      invariant Split(s, done, i, j, t)
    {
      var c := s[i];
      if c == 61 && j > 1 {
        break;
      }
      var d := Digit(c);
      if d.None? {
        SplitFail(s, done, i, j, t);
        return false, 0;
      }
      DigitBits(t, d.value);
      EmitForms(t, d.value);
      assert done + [] == done;
      SplitStep(s, done, i, j, t, d.value);
      i := i + 1;
      if j == 0 {
        j := 1;
      } else {
        var v := if j == 1 then Or(t * 4 % 256, And(d.value, 48) / 16)
                 else if j == 2 then Or(And(t, 15) * 16, And(d.value, 60) / 4)
                 else Or(And(t, 3) * 64, d.value);
        if pos < buffer.Length {
          Put(buffer, pos, v, was, offset, done);
        }
        done := done + [v];
        pos := pos + 1;
        j := if j == 3 then 0 else j + 1;
      }
      t := d.value;
    }
    SplitEnd(s, done, i, j, t);
    if j == 1 {
      return false, 0;
    }
    return true, pos - offset;
  }

  /** What is written so far and what is still to come make up the whole result. */
  ghost predicate Split(s: bytes, done: bytes, i: nat, j: nat, t: nat)
    requires i <= |s| && j <= 3 && t < 64
  {
    match DecodeFrom(s, i, j, t)
    case None => DecodeFrom(s, 0, 0, 0) == None
    case Some(rest) => DecodeFrom(s, 0, 0, 0) == Some(done + rest)
  }

  lemma SplitStart(s: bytes)
    ensures Split(s, [], 0, 0, 0)
  {
    var r := DecodeFrom(s, 0, 0, 0);
    if r.Some? {
      assert [] + r.value == r.value;
    }
  }

  lemma SplitFail(s: bytes, done: bytes, i: nat, j: nat, t: nat)
    requires i < |s| && j <= 3 && t < 64 && Split(s, done, i, j, t)
    requires !(s[i] == PAD && j > 1) && Digit(s[i]).None?
    ensures DecodeFrom(s, 0, 0, 0) == None
  {
  }

  lemma SplitEnd(s: bytes, done: bytes, i: nat, j: nat, t: nat)
    requires i <= |s| && j <= 3 && t < 64 && Split(s, done, i, j, t)
    requires i == |s| || (s[i] == PAD && j > 1)
    ensures DecodeFrom(s, 0, 0, 0) == if j == 1 then None else Some(done)
  {
    assert done + [] == done;
  }

  lemma EmitForms(t: nat, c: nat)
    requires t < 64 && c < 64
    ensures Emit(0, t, c) == [] && Emit(1, t, c) == [t * 4 + c / 16]
    ensures Emit(2, t, c) == [t % 16 * 16 + c / 4] && Emit(3, t, c) == [t % 4 * 64 + c]
  {
  }

  lemma SplitStep(s: bytes, done: bytes, i: nat, j: nat, t: nat, c: nat)
    requires i < |s| && j <= 3 && t < 64 && Split(s, done, i, j, t)
    requires !(s[i] == PAD && j > 1) && Digit(s[i]) == Some(c)
    ensures Split(s, done + Emit(j, t, c), i + 1, (j + 1) % 4, c)
  {
    var r := DecodeFrom(s, i + 1, (j + 1) % 4, c);
    if r.Some? {
      assert done + (Emit(j, t, c) + r.value) == (done + Emit(j, t, c)) + r.value;
    }
  }

  lemma DigitBits(t: nat, c: nat)
    requires t < 64 && c < 64
    ensures Or(t * 4 % 256, And(c, 48) / 16) == t * 4 + c / 16
    ensures Or(And(t, 15) * 16, And(c, 60) / 4) == t % 16 * 16 + c / 4
    ensures Or(And(t, 3) * 64, c) == t % 4 * 64 + c
  {
    hide And, Or, Pow2;
    DigitMasks(t, c);
    var h, l := c / 16, c / 4;
    OrDisjoint(h, t, 2);
    OrCommutes(h, t * 4);
    OrDisjoint(l, t % 16, 4);
    OrCommutes(l, t % 16 * 16);
    OrDisjoint(c, t % 4, 6);
    OrCommutes(c, t % 4 * 64);
  }

  lemma DigitMasks(t: nat, c: nat)
    requires t < 64 && c < 64
    ensures Pow2(2) == 4 && Pow2(4) == 16 && Pow2(6) == 64
    ensures And(t, 15) == t % 16 && And(t, 3) == t % 4 && t * 4 % 256 == t * 4
    ensures And(c, 48) / 16 == c / 16 && And(c, 60) / 4 == c / 4
  {
    hide And;
    assert Pow2(2) == 4 && Pow2(4) == 16;
    AndMask(t, 2);
    AndMask(t, 4);
    AndSixteen(c, 3);
    AndMask(c / 16, 2);
    AndFour(c, 15);
    AndMask(c / 4, 4);
  }
}
