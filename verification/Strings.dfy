/** JavaScript's `split` and `join` with a one-character separator, and the letters and digits of ASCII. */
module Strings {
  function Split(s: string, c: char): (parts: seq<string>)
    ensures |parts| > 0 && Plain(parts, c)
  {
    if s == "" then [""]
    else
      var rest := Split(s[1..], c);
      if s[0] == c then [""] + rest else [[s[0]] + rest[0]] + rest[1..]
  }

  function Join(parts: seq<string>, c: char): string {
    if parts == [] then ""
    else if |parts| == 1 then parts[0]
    else parts[0] + [c] + Join(parts[1..], c)
  }

  /** None of the parts holds the separator. */
  predicate Plain(parts: seq<string>, c: char) {
    forall i | 0 <= i < |parts| :: c !in parts[i]
  }

  lemma {:induction false} SplitPart(part: string, rest: string, c: char)
    requires c !in part
    ensures Split(part, c) == [part]
    ensures Split(part + [c] + rest, c) == [part] + Split(rest, c)
  {
    var s := part + [c] + rest;
    if part == "" {
      assert s[1..] == rest;
    } else {
      SplitPart(part[1..], rest, c);
      assert s[1..] == part[1..] + [c] + rest;
      assert [part[0]] + part[1..] == part;
    }
  }

  /** Splitting undoes joining, unless a part holds the separator or there is no part. */
  lemma {:induction false} SplitInverse(parts: seq<string>, c: char)
    requires |parts| > 0
    ensures Split(Join(parts, c), c) == parts <==> Plain(parts, c)
  {
    if Plain(parts, c) {
      if |parts| == 1 {
        SplitPart(parts[0], "", c);
      } else {
        SplitInverse(parts[1..], c);
        SplitPart(parts[0], Join(parts[1..], c), c);
      }
    }
  }

  /** Joining undoes splitting. */
  lemma {:induction false} JoinInverse(s: string, c: char)
    ensures Join(Split(s, c), c) == s
  {
    if s != "" {
      JoinInverse(s[1..], c);
      var rest := Split(s[1..], c);
      if s[0] == c {
        assert Split(s, c)[1..] == rest;
      } else {
        assert Split(s, c)[1..] == rest[1..];
        assert Join(Split(s, c), c) == [s[0]] + Join(rest, c);
      }
    }
  }

  /** The last part is empty when the string is, or ends in the separator. */
  lemma {:induction false} LastPart(s: string, c: char)
    ensures var parts := Split(s, c); parts[|parts| - 1] == "" <==> s == "" || s[|s| - 1] == c
  {
    if s != "" {
      LastPart(s[1..], c);
      var rest := Split(s[1..], c);
      if |s| == 1 {
        assert s[1..] == "";
      } else {
        assert s[1..][|s| - 2] == s[|s| - 1];
      }
    }
  }

  // ---- letters and digits ----

  const UPPER := "ABCDEFGHIJKLMNOPQRSTUVWXYZ"
  const LOWER := "abcdefghijklmnopqrstuvwxyz"
  const DIGITS := "0123456789"

  lemma LetterAt(i: nat)
    requires i < 26
    ensures UPPER[i] as int == i + 65 && LOWER[i] as int == i + 97
  {
  }

  lemma DigitAt(i: nat)
    requires i < 10
    ensures DIGITS[i] as int == i + 48
  {
  }

  lemma Letters(u: string, l: string)
    requires u == UPPER && l == LOWER
    ensures |u| == |l| == 26
    ensures forall i | 0 <= i < 26 :: u[i] as int == 65 + i && l[i] as int == 97 + i
  {
    forall i | 0 <= i < 26
      ensures u[i] as int == 65 + i && l[i] as int == 97 + i
    {
      LetterAt(i);
    }
  }

  lemma Digits(d: string)
    requires d == DIGITS
    ensures |d| == 10 && forall i | 0 <= i < 10 :: d[i] as int == 48 + i
  {
    forall i | 0 <= i < 10
      ensures d[i] as int == 48 + i
    {
      DigitAt(i);
    }
  }
}
