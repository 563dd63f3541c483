/** `path.normalize`, against a walk through directories. */
module Paths {
  import opened Strings

  /** A file system position: a root (`""` or a drive such as `"c:"`) and the directories below it. */
  datatype Place = Place(root: string, dirs: seq<string>)

  // ---- the meaning of a path ----

  function Slashes(s: string): (r: string)
    ensures '\\' !in r
    ensures '\\' !in s ==> r == s
  {
    if s == "" then "" else [if s[0] == '\\' then '/' else s[0]] + Slashes(s[1..])
  }

  predicate IsWord(c: char) {
    'a' <= c <= 'z' || 'A' <= c <= 'Z' || '0' <= c <= '9' || c == '_'
  }

  /** Backslashes become slashes and everything else stays. */
  lemma {:induction false} SlashesAt(s: string, i: nat)
    requires i < |s|
    ensures |Slashes(s)| == |s| && Slashes(s)[i] == if s[i] == '\\' then '/' else s[i]
  {
    SlashesSize(s);
    if i > 0 {
      SlashesAt(s[1..], i - 1);
    }
  }

  lemma {:induction false} SlashesSize(s: string)
    ensures |Slashes(s)| == |s|
  {
    if s != "" {
      SlashesSize(s[1..]);
    }
  }

  /** `low`, and the characters after it. */
  lemma Range(s: string, low: char, high: char, c: char)
    requires |s| > 0 && high as int == low as int + |s| - 1 && forall i | 0 <= i < |s| :: s[i] as int == low as int + i
    ensures low <= c <= high <==> c in s
  {
    if low <= c <= high {
      assert s[(c as int) - (low as int)] == c;
    }
  }

  /** The word characters are the letters, the digits and the underscore. */
  lemma WordCharacters(c: char)
    ensures IsWord(c) <==> c in UPPER || c in LOWER || c in DIGITS || c == '_'
  {
    Letters(UPPER, LOWER);
    Digits(DIGITS);
    Range(UPPER, 'A', 'Z', c);
    Range(LOWER, 'a', 'z', c);
    Range(DIGITS, '0', '9', c);
  }

  /** Starts with word characters and a colon. */
  predicate IsDrive(s: string) {
    exists k :: 0 < k < |s| && s[k] == ':' && forall j | 0 <= j < k :: IsWord(s[j])
  }

  predicate IsAbsolute(s: string) {
    (s != "" && s[0] == '/') || IsDrive(s)
  }

  function Step(dirs: seq<string>, c: string): seq<string> {
    if c == "" || c == "." then dirs
    else if c == ".." then (if dirs == [] then [] else dirs[..|dirs| - 1])
    else dirs + [c]
  }

  function Walk(dirs: seq<string>, cs: seq<string>): seq<string>
    decreases |cs|
  {
    if cs == [] then dirs else Walk(Step(dirs, cs[0]), cs[1..])
  }

  /** Where a path leads to, with either kind of slash between its components. */
  function Lead(start: Place, path: string): Place {
    var s := Slashes(path);
    var cs := Split(s, '/');
    if IsAbsolute(s) then Place(cs[0], Walk([], cs[1..])) else Place(start.root, Walk(start.dirs, cs))
  }

  // ---- what the code computes ----

  function Collapse(s: string): string {
    if s == "" then ""
    else if s[0] == '/' && |s| > 1 && s[1] == '/' then Collapse(s[1..])
    else [s[0]] + Collapse(s[1..])
  }

  function Components(path: string): (cs: seq<string>)
    ensures |cs| > 0
  {
    Split(Collapse(Slashes(path)), '/')
  }

  /** Takes the components of `rest` one by one: a parent reference removes the name before it, or
      is dropped at a root. */
  function Reduce(kept: seq<string>, rest: seq<string>, absolute: bool): seq<string>
    decreases |rest|
  {
    if rest == [] then kept
    else if rest[0] == ".." then
      if kept != [] && kept[|kept| - 1] != ".." then Reduce(kept[..|kept| - 1], rest[1..], absolute)
      else if absolute then Reduce(kept, rest[1..], absolute)
      else Reduce(kept + [rest[0]], rest[1..], absolute)
    else if rest[0] == "." then Reduce(kept, rest[1..], absolute)
    else Reduce(kept + [rest[0]], rest[1..], absolute)
  }

  /** The components that are left, without the root. */
  function Remaining(path: string): seq<string> {
    var cs := Components(path);
    if IsAbsolute(Collapse(Slashes(path))) then Reduce([], cs[1..], true) else Reduce([], cs, false)
  }

  function Normal(path: string): string {
    (if IsAbsolute(Collapse(Slashes(path))) then Components(path)[0] + "/" else "") + Join(Remaining(path), '/')
  }

  /** `normalize`: rewrites the list of components in place. */
  method Normalize(path: string) returns (r: string)
    ensures r == Normal(path)
  {
    var clean := Collapse(Slashes(path));
    var parts := Split(clean, '/');
    var absolute := IsAbsolute(clean);
    var prefix := "";
    if absolute {
      prefix := parts[0] + "/";
      parts := parts[1..];
    }
    assert parts[..0] == [] && parts[0..] == parts;
    var i := 0;
    while i < |parts|
      invariant i <= |parts|
      invariant Reduce(parts[..i], parts[i..], absolute) == Remaining(path)
      decreases |parts| - i
    {
      ghost var kept, rest := parts[..i], parts[i..];
      if parts[i] == ".." {
        if i > 0 && parts[i - 1] != ".." {
          i := i - 1;
          parts := parts[..i] + parts[i + 2..];
          assert parts[..i] == kept[..|kept| - 1] && parts[i..] == rest[1..];
        } else if absolute {
          parts := parts[..i] + parts[i + 1..];
          assert parts[..i] == kept && parts[i..] == rest[1..];
        } else {
          i := i + 1;
          assert parts[..i] == kept + [rest[0]] && parts[i..] == rest[1..];
        }
      } else if parts[i] == "." {
        parts := parts[..i] + parts[i + 1..];
        assert parts[..i] == kept && parts[i..] == rest[1..];
      } else {
        i := i + 1;
        assert parts[..i] == kept + [rest[0]] && parts[i..] == rest[1..];
      }
    }
    assert parts[..i] == parts && parts[i..] == [];
    return prefix + Join(parts, '/');
  }

  // ---- reduced components ----

  /** No component is empty, except possibly the last. */
  predicate Filled(cs: seq<string>) {
    forall i | 0 <= i < |cs| - 1 :: cs[i] != ""
  }

  /** No `.` is left, and `..` only as a leading run of a relative path. */
  predicate Reduced(cs: seq<string>, absolute: bool) {
    && (forall i | 0 <= i < |cs| :: cs[i] != ".")
    && (forall i, j | 0 <= j <= i < |cs| && cs[i] == ".." :: !absolute && cs[j] == "..")
  }

  lemma {:induction false} WalkConcat(dirs: seq<string>, a: seq<string>, b: seq<string>)
    ensures Walk(dirs, a + b) == Walk(Walk(dirs, a), b)
    decreases |a|
  {
    if a == [] {
      assert a + b == b;
    } else {
      assert (a + b)[1..] == a[1..] + b;
      WalkConcat(Step(dirs, a[0]), a[1..], b);
    }
  }

  lemma WalkLast(dirs: seq<string>, kept: seq<string>, c: string)
    ensures Walk(dirs, kept + [c]) == Step(Walk(dirs, kept), c)
  {
    WalkConcat(dirs, kept, [c]);
    assert [c][1..] == [];
  }

  /** Adding a component to a reduced list, and taking the last one away. */
  lemma Push(kept: seq<string>, rest: seq<string>, absolute: bool)
    requires Reduced(kept, absolute) && rest != [] && Filled(kept + rest)
    ensures Filled(kept + rest[1..]) && kept + [rest[0]] + rest[1..] == kept + rest
    ensures rest[0] != "." && (rest[0] == ".." ==> !absolute && (kept != [] ==> kept[|kept| - 1] == "..")) ==> Reduced(kept + [rest[0]], absolute)
  {
    assert forall i | 0 <= i < |kept| :: (kept + rest)[i] == kept[i];
    assert forall i | 0 <= i < |rest| :: (kept + rest)[|kept| + i] == rest[i];
  }

  lemma Pop(kept: seq<string>, rest: seq<string>, absolute: bool)
    requires Reduced(kept, absolute) && kept != [] && rest != [] && Filled(kept + rest)
    ensures kept[|kept| - 1] != "" && kept[|kept| - 1] != "."
    ensures var front := kept[..|kept| - 1]; Reduced(front, absolute) && Filled(front + rest[1..]) && kept == front + [kept[|kept| - 1]]
  {
    var front := kept[..|kept| - 1];
    assert forall i | 0 <= i < |kept| :: (kept + rest)[i] == kept[i];
    assert forall i | 0 <= i < |rest| :: (kept + rest)[|kept| + i] == rest[i];
  }

  lemma {:induction false} ReduceShape(kept: seq<string>, rest: seq<string>, absolute: bool)
    requires Reduced(kept, absolute) && Filled(kept + rest)
    ensures Reduced(Reduce(kept, rest, absolute), absolute) && Filled(Reduce(kept, rest, absolute))
    decreases |rest|
  {
    hide Reduced, Filled;
    if rest == [] {
      assert kept + rest == kept;
    } else {
      Push(kept, rest, absolute);
      if rest[0] == ".." && kept != [] && kept[|kept| - 1] != ".." {
        Pop(kept, rest, absolute);
        ReduceShape(kept[..|kept| - 1], rest[1..], absolute);
      } else if rest[0] == "." || (rest[0] == ".." && absolute) {
        ReduceShape(kept, rest[1..], absolute);
      } else {
        ReduceShape(kept + [rest[0]], rest[1..], absolute);
      }
    }
  }

  /** Reducing keeps the place that the components lead to. */
  lemma {:induction false} ReduceLeads(dirs: seq<string>, kept: seq<string>, rest: seq<string>, absolute: bool)
    requires absolute ==> dirs == []
    requires Reduced(kept, absolute) && Filled(kept + rest)
    ensures Walk(dirs, Reduce(kept, rest, absolute)) == Walk(Walk(dirs, kept), rest)
    decreases |rest|
  {
    hide Reduced, Filled;
    if rest != [] {
      var c, tail := rest[0], rest[1..];
      Push(kept, rest, absolute);
      WalkLast(dirs, kept, c);
      if c == ".." && kept != [] && kept[|kept| - 1] != ".." {
        var front := kept[..|kept| - 1];
        Pop(kept, rest, absolute);
        WalkLast(dirs, front, kept[|kept| - 1]);
        ReduceLeads(dirs, front, tail, absolute);
      } else if c == "." || (c == ".." && absolute) {
        NoneAbove(kept, absolute);
        ReduceLeads(dirs, kept, tail, absolute);
      } else {
        ReduceLeads(dirs, kept + [c], tail, absolute);
      }
    }
  }

  lemma NoneAbove(kept: seq<string>, absolute: bool)
    requires Reduced(kept, absolute)
    ensures absolute && kept != [] ==> kept[|kept| - 1] != ".."
  {
  }

  lemma {:induction false} ReduceFixed(kept: seq<string>, rest: seq<string>, absolute: bool)
    requires Reduced(kept + rest, absolute)
    ensures Reduce(kept, rest, absolute) == kept + rest
    decreases |rest|
  {
    if rest != [] {
      assert (kept + rest)[|kept|] == rest[0];
      assert kept != [] ==> (kept + rest)[|kept| - 1] == kept[|kept| - 1];
      assert kept + [rest[0]] + rest[1..] == kept + rest;
      ReduceFixed(kept + [rest[0]], rest[1..], absolute);
    }
  }

  // ---- from components to strings and back ----

  /** Empty components stand only at the two ends. */
  predicate Inner(cs: seq<string>) {
    forall i | 0 < i < |cs| - 1 :: cs[i] != ""
  }

  /** Collapsing runs of slashes keeps the first component and the place that the others lead to. */
  lemma {:induction false} CollapseLeads(s: string)
    ensures var a, b := Split(s, '/'), Split(Collapse(s), '/');
      && a[0] == b[0] && (|a| > 1 <==> |b| > 1)
      && forall dirs :: Walk(dirs, a[1..]) == Walk(dirs, b[1..])
  {
    if s != "" {
      CollapseLeads(s[1..]);
      var a, b := Split(s[1..], '/'), Split(Collapse(s[1..]), '/');
      if s[0] == '/' && |s| > 1 && s[1] == '/' {
        assert Split(s, '/')[1..] == a;
      } else {
        var r := Collapse(s);
        assert r[1..] == Collapse(s[1..]);
        if s[0] == '/' {
          assert Split(s, '/')[1..] == a && Split(r, '/')[1..] == b;
        } else {
          assert Split(s, '/')[1..] == a[1..] && Split(r, '/')[1..] == b[1..];
        }
      }
    }
  }

  lemma {:induction false} CollapseInner(s: string)
    ensures var b := Split(Collapse(s), '/'); Inner(b) && (s != "" && s[0] != '/' ==> b[0] != "")
  {
    if s != "" {
      CollapseInner(s[1..]);
      if !(s[0] == '/' && |s| > 1 && s[1] == '/') {
        assert Collapse(s)[1..] == Collapse(s[1..]);
      }
    }
  }

  lemma {:induction false} CollapseFixed(s: string)
    requires Inner(Split(s, '/'))
    ensures Collapse(s) == s
  {
    if s != "" {
      var a := Split(s[1..], '/');
      if s[0] == '/' {
        assert Split(s, '/')[1..] == a;
        if |s| > 1 && s[1] == '/' {
          assert false;
        }
        forall i | 0 < i < |a| - 1
          ensures a[i] != ""
        {
          assert Split(s, '/')[i + 1] == a[i];
        }
      } else {
        assert forall i | 0 < i < |a| :: Split(s, '/')[i] == a[i];
      }
      CollapseFixed(s[1..]);
    }
  }

  /** Whether a path is absolute shows in its first component. */
  lemma {:induction false} AbsoluteByFirst(s: string)
    ensures var cs := Split(s, '/');
      && cs[0] <= s && (|cs| > 1 <==> cs[0] < s) && (cs[0] < s ==> s[|cs[0]|] == '/')
      && (IsAbsolute(s) <==> (|cs| > 1 && cs[0] == "") || IsDrive(cs[0]))
  {
    FirstComponent(s);
    var c := Split(s, '/')[0];
    if IsDrive(c) {
      var k :| 0 < k < |c| && c[k] == ':' && forall j | 0 <= j < k :: IsWord(c[j]);
      assert s[k] == ':';
    }
    if IsDrive(s) {
      var k :| 0 < k < |s| && s[k] == ':' && forall j | 0 <= j < k :: IsWord(s[j]);
      assert k < |c|;
      assert c[k] == ':';
    }
  }

  lemma {:induction false} FirstComponent(s: string)
    ensures var cs := Split(s, '/');
      && cs[0] <= s && (|cs| > 1 <==> cs[0] < s) && (cs[0] < s ==> s[|cs[0]|] == '/')
  {
    if s != "" {
      FirstComponent(s[1..]);
      if s[0] != '/' {
        var c := Split(s[1..], '/')[0];
        assert [s[0]] + c <= s;
      }
    }
  }

  lemma {:induction false} SplitFree(s: string, c: char, d: char)
    requires d !in s
    ensures Plain(Split(s, c), d)
  {
    if s != "" {
      SplitFree(s[1..], c, d);
    }
  }

  lemma {:induction false} JoinFree(parts: seq<string>, c: char, d: char)
    requires Plain(parts, d) && c != d
    ensures d !in Join(parts, c)
  {
    if |parts| > 1 {
      JoinFree(parts[1..], c, d);
    }
  }

  lemma {:induction false} SlashesFree(s: string, d: char)
    requires d !in s && d != '/'
    ensures d !in Slashes(s)
  {
    if s != "" {
      SlashesFree(s[1..], d);
    }
  }

  lemma {:induction false} CollapseFree(s: string, d: char)
    requires d !in s
    ensures d !in Collapse(s)
  {
    if s != "" {
      CollapseFree(s[1..], d);
    }
  }

  lemma {:induction false} ReduceFrom(kept: seq<string>, rest: seq<string>, absolute: bool, c: string)
    requires c in Reduce(kept, rest, absolute)
    ensures c in kept || c in rest
    decreases |rest|
  {
    if rest != [] {
      if rest[0] == ".." && kept != [] && kept[|kept| - 1] != ".." {
        ReduceFrom(kept[..|kept| - 1], rest[1..], absolute, c);
      } else if rest[0] == "." || (rest[0] == ".." && absolute) {
        ReduceFrom(kept, rest[1..], absolute, c);
      } else {
        ReduceFrom(kept + [rest[0]], rest[1..], absolute, c);
      }
    }
  }

  // ---- what remains first, by counting ----

  function Weight(c: string): int {
    if c == ".." then -1 else if c == "." then 0 else 1
  }

  /** How many more names than parent references there are. */
  function Level(cs: seq<string>): int {
    if cs == [] then 0 else Level(cs[..|cs| - 1]) + Weight(cs[|cs| - 1])
  }

  /** In no prefix are there more parent references than names. */
  predicate Above(cs: seq<string>) {
    forall j | 0 <= j <= |cs| :: Level(cs[..j]) >= 0
  }

  /** The component at `k` is the first one that remains: what comes before it cancels out without
      going above the start, and what comes after it never takes it away. */
  predicate FirstLeft(cs: seq<string>, k: nat)
    requires k < |cs|
  {
    Above(cs[..k]) && Level(cs[..k]) == 0 && Weight(cs[k]) == 1 && Above(cs[k + 1..])
  }

  lemma {:induction false} ReduceConcat(kept: seq<string>, a: seq<string>, b: seq<string>, absolute: bool)
    ensures Reduce(kept, a + b, absolute) == Reduce(Reduce(kept, a, absolute), b, absolute)
    decreases |a|
  {
    if a == [] {
      assert a + b == b;
    } else {
      assert (a + b)[0] == a[0] && (a + b)[1..] == a[1..] + b;
      if a[0] == ".." && kept != [] && kept[|kept| - 1] != ".." {
        ReduceConcat(kept[..|kept| - 1], a[1..], b, absolute);
      } else if a[0] == "." || (a[0] == ".." && absolute) {
        ReduceConcat(kept, a[1..], b, absolute);
      } else {
        ReduceConcat(kept + [a[0]], a[1..], b, absolute);
      }
    }
  }

  lemma {:induction false} LevelConcat(a: seq<string>, b: seq<string>)
    ensures Level(a + b) == Level(a) + Level(b)
    decreases |b|
  {
    if b == [] {
      assert a + b == a;
    } else {
      assert (a + b)[..|a + b| - 1] == a + b[..|b| - 1];
      LevelConcat(a, b[..|b| - 1]);
    }
  }

  lemma LevelNext(front: seq<string>, c: string)
    ensures Level(front + [c]) == Level(front) + Weight(c)
    ensures Above(front + [c]) <==> Above(front) && Level(front + [c]) >= 0
  {
    var cs := front + [c];
    assert cs[..|front|] == front && cs[..|cs|] == cs;
    assert forall j | 0 <= j <= |front| :: cs[..j] == front[..j];
    if Above(cs) {
      assert forall j | 0 <= j <= |front| :: Level(front[..j]) == Level(cs[..j]);
    }
  }

  /** The level of a list behind its first remaining component. */
  lemma LevelBehind(cs: seq<string>, k: nat, j: nat)
    requires k < j <= |cs|
    ensures Level(cs[..j]) == Level(cs[..k]) + Weight(cs[k]) + Level(cs[k + 1..][..j - k - 1])
  {
    assert cs[..j] == cs[..k + 1] + cs[k + 1..][..j - k - 1];
    LevelConcat(cs[..k + 1], cs[k + 1..][..j - k - 1]);
    assert cs[..k + 1] == cs[..k] + [cs[k]];
    LevelNext(cs[..k], cs[k]);
  }

  lemma FirstLeftLevels(cs: seq<string>, k: nat)
    requires k < |cs| && FirstLeft(cs, k)
    ensures Above(cs) && Level(cs) == 1 + Level(cs[k + 1..])
    ensures forall j | k < j <= |cs| :: Level(cs[..j]) > 0
  {
    forall j | 0 <= j <= |cs|
      ensures Level(cs[..j]) >= if j > k then 1 else 0
    {
      if j > k {
        LevelBehind(cs, k, j);
      } else {
        assert cs[..k][..j] == cs[..j];
      }
    }
    LevelBehind(cs, k, |cs|);
    assert cs[..|cs|] == cs && cs[k + 1..][..|cs| - k - 1] == cs[k + 1..];
  }

  lemma FirstLeftUnique(cs: seq<string>, k: nat, l: nat)
    requires k < |cs| && l < |cs| && FirstLeft(cs, k) && FirstLeft(cs, l)
    ensures k == l
  {
    FirstLeftLevels(cs, k);
    FirstLeftLevels(cs, l);
  }

  /** What is left of a relative path: it begins above the start, or it is as long as the level and
      begins with the component that the levels single out. */
  predicate Left(cs: seq<string>, r: seq<string>) {
    if !Above(cs) then r != [] && r[0] == ".."
    else |r| == Level(cs) && ".." !in r && (r != [] ==> Begins(cs, r[0]))
  }

  predicate Begins(cs: seq<string>, c: string) {
    exists k :: 0 <= k < |cs| && FirstLeft(cs, k) && c == cs[k]
  }

  lemma {:induction false} ReduceLeft(cs: seq<string>)
    ensures Left(cs, Reduce([], cs, false))
    decreases |cs|
  {
    hide Left;
    if cs == [] {
      LeftNone();
    } else {
      var front, c := cs[..|cs| - 1], cs[|cs| - 1];
      ReduceLeft(front);
      assert cs == front + [c];
      ReduceConcat([], front, [c], false);
      LeftNext(front, c, Reduce([], front, false));
    }
  }

  lemma LeftNone()
    ensures Left([], [])
  {
  }

  lemma LeftNext(front: seq<string>, c: string, r: seq<string>)
    requires Left(front, r)
    ensures Left(front + [c], Reduce(r, [c], false))
  {
    hide Above, Begins, Level;
    var cs := front + [c];
    LevelNext(front, c);
    LevelPositive(front);
    assert [c][1..] == [];
    if Above(front) && c != ".." {
      if c != "." && r == [] {
        BeginsHere(front, c);
      } else if r != [] {
        BeginsStill(front, c, r[0]);
      }
    } else if Above(front) && |r| > 1 {
      BeginsStill(front, c, r[0]);
    }
  }

  lemma LevelPositive(cs: seq<string>)
    ensures Above(cs) ==> Level(cs) >= 0
  {
    assert cs[..|cs|] == cs;
  }

  lemma BeginsHere(front: seq<string>, c: string)
    requires Above(front) && Level(front) == 0 && Weight(c) == 1
    ensures Begins(front + [c], c)
  {
    var cs := front + [c];
    assert cs[..|front|] == front && cs[|front| + 1..] == [];
    assert FirstLeft(cs, |front|);
  }

  lemma BeginsStill(front: seq<string>, c: string, first: string)
    requires Begins(front, first) && Level(front) + Weight(c) > 0
    ensures Begins(front + [c], first)
  {
    var cs := front + [c];
    var k :| 0 <= k < |front| && FirstLeft(front, k) && first == front[k];
    FirstLeftLevels(front, k);
    assert cs[..k] == front[..k] && cs[k + 1..] == front[k + 1..] + [c];
    LevelNext(front[k + 1..], c);
    assert FirstLeft(cs, k);
  }

  // ---- normalized paths ----

  ghost predicate Rooted(path: string) {
    IsAbsolute(Collapse(Slashes(path)))
  }

  /** The components behind the root, before the rewriting. */
  ghost function Below(path: string): seq<string> {
    if Rooted(path) then Components(path)[1..] else Components(path)
  }

  /** As the components that `split` finds in an empty string. */
  ghost function OrBlank(cs: seq<string>): seq<string> {
    if cs == [] then [""] else cs
  }

  /** The components of the normalized path. */
  ghost function Expected(path: string): seq<string> {
    (if Rooted(path) then [Components(path)[0]] else []) + OrBlank(Remaining(path))
  }

  lemma BelowShape(path: string)
    ensures Filled(Below(path)) && Plain(Components(path), '/') && Plain(Components(path), '\\')
    ensures forall c | c in Below(path) :: c in Components(path)
    ensures Remaining(path) == Reduce([], Below(path), Rooted(path))
  {
    var s := Slashes(path);
    var cs := Components(path);
    CollapseInner(s);
    CollapseFree(s, '\\');
    SplitFree(Collapse(s), '/', '\\');
    AbsoluteByFirst(Collapse(s));
  }

  lemma RemainingShape(path: string)
    ensures Reduced(Remaining(path), Rooted(path)) && Filled(Remaining(path))
    ensures forall dirs | Rooted(path) ==> dirs == [] :: Walk(dirs, Remaining(path)) == Walk(dirs, Below(path))
    ensures forall c | c in Remaining(path) :: c in Components(path)
  {
    BelowShape(path);
    var below := Below(path);
    assert [] + below == below;
    ReduceShape([], below, Rooted(path));
    forall dirs | Rooted(path) ==> dirs == []
      ensures Walk(dirs, Remaining(path)) == Walk(dirs, below)
    {
      ReduceLeads(dirs, [], below, Rooted(path));
    }
    forall c | c in Remaining(path)
      ensures c in Components(path)
    {
      ReduceFrom([], below, Rooted(path), c);
    }
  }

  lemma JoinExpected(path: string)
    ensures Normal(path) == Join(Expected(path), '/')
  {
    var some := OrBlank(Remaining(path));
    assert Join(some, '/') == Join(Remaining(path), '/');
    if Rooted(path) {
      var cs := Components(path);
      assert Expected(path)[1..] == some;
      assert cs[0] + ['/'] + Join(some, '/') == cs[0] + "/" + Join(some, '/');
    } else {
      assert Expected(path) == some;
    }
  }

  lemma ExpectedShape(path: string)
    ensures Plain(Expected(path), '/') && Plain(Expected(path), '\\') && Inner(Expected(path))
  {
    hide Remaining, Components;
    BelowShape(path);
    RemainingShape(path);
    var q := Expected(path);
    forall i | 0 <= i < |q|
      ensures '/' !in q[i] && '\\' !in q[i]
    {
      assert q[i] == "" || q[i] in Remaining(path) || q[i] == Components(path)[0];
    }
  }

  /** A normalized path holds no backslash and no double slash, and its components are those that
      the rewriting left. */
  lemma ReadBack(path: string)
    ensures Slashes(Normal(path)) == Normal(path) && Collapse(Normal(path)) == Normal(path)
    ensures Components(Normal(path)) == Expected(path)
  {
    hide Remaining, Normal, Rooted;
    var q := Expected(path);
    ExpectedShape(path);
    JoinExpected(path);
    JoinFree(q, '/', '\\');
    SplitInverse(q, '/');
    CollapseFixed(Normal(path));
  }

  /** A relative path whose first remaining component looks like a drive turns into an absolute one. */
  ghost predicate Misread(path: string) {
    !Rooted(path) && Remaining(path) != [] && IsDrive(Remaining(path)[0])
  }

  /** The same by the components of the path: it is relative, and they cancel out down to one that
      looks like a drive. */
  ghost predicate DriveLeft(path: string) {
    !Rooted(path) && exists k ::
      0 <= k < |Components(path)| && FirstLeft(Components(path), k) && IsDrive(Components(path)[k])
  }

  lemma MisreadExactly(path: string)
    ensures Misread(path) <==> DriveLeft(path)
    ensures DriveLeft(path) ==> |Remaining(path)| == Level(Components(path))
  {
    hide IsDrive, Reduce, Components;
    var cs := Components(path);
    if !Rooted(path) {
      var r := Remaining(path);
      ReduceLeft(cs);
      NoDrive();
      if k :| 0 <= k < |cs| && FirstLeft(cs, k) && IsDrive(cs[k]) {
        FirstLeftLevels(cs, k);
        LevelPositive(cs[k + 1..]);
        assert Begins(cs, r[0]);
        var l :| 0 <= l < |cs| && FirstLeft(cs, l) && r[0] == cs[l];
        FirstLeftUnique(cs, k, l);
      }
    }
  }

  lemma RootedAfter(path: string)
    ensures Rooted(Normal(path)) <==> Rooted(path) || Misread(path)
  {
    hide Remaining, Normal, IsDrive;
    ReadBack(path);
    RemainingShape(path);
    AbsoluteByFirst(Normal(path));
    AbsoluteByFirst(Collapse(Slashes(path)));
    NoDrive();
  }

  lemma NoDrive()
    ensures !IsDrive("") && !IsDrive("..")
  {
  }

  lemma LeadBelow(start: Place, path: string)
    ensures Lead(start, path) == if Rooted(path) then Place(Components(path)[0], Walk([], Below(path)))
                                 else Place(start.root, Walk(start.dirs, Below(path)))
  {
    hide IsAbsolute, IsDrive;
    var s := Slashes(path);
    CollapseLeads(s);
    AbsoluteByFirst(s);
    AbsoluteByFirst(Collapse(s));
  }

  /** A path and its normalized form lead to the same place from everywhere, if and only if the
      components of the path do not cancel out down to a drive. */
  lemma SamePlace(path: string)
    ensures (forall start :: Lead(start, Normal(path)) == Lead(start, path)) <==> !DriveLeft(path)
  {
    hide Normal, Remaining, Components, Lead, IsDrive, DriveLeft;
    MisreadExactly(path);
    var n := Normal(path);
    ReadBack(path);
    RootedAfter(path);
    RemainingShape(path);
    if Misread(path) {
      var start := Place("", []);
      LeadBelow(start, n);
      LeadBelow(start, path);
      NoDrive();
    } else {
      forall start
        ensures Lead(start, n) == Lead(start, path)
      {
        LeadBelow(start, n);
        LeadBelow(start, path);
        assert Below(n) == OrBlank(Remaining(path));
      }
    }
  }

  /** What is left: no `.`, and `..` only at the beginning of a relative path. */
  lemma Tidy(path: string)
    ensures Reduced(Below(Normal(path)), Rooted(Normal(path))) && Filled(Below(Normal(path)))
  {
    hide Remaining, Components, IsDrive, Normal, Rooted;
    var r := Remaining(path);
    ReadBack(path);
    RootedAfter(path);
    RemainingShape(path);
    NoDrive();
    if Misread(path) {
      assert Below(Normal(path)) == r[1..];
      assert forall i | 0 <= i < |r| - 1 :: r[1..][i] == r[i + 1];
    } else {
      assert Below(Normal(path)) == OrBlank(r);
    }
  }

  lemma RemainingAfter(path: string)
    ensures Remaining(Normal(path)) == Below(Normal(path))
  {
    hide Remaining, Components, IsDrive, Normal, Rooted, Reduced, Filled, Reduce, Below;
    var n := Normal(path);
    BelowShape(n);
    Tidy(path);
    assert [] + Below(n) == Below(n);
    ReduceFixed([], Below(n), Rooted(n));
  }

  lemma ExpectedAfter(path: string)
    ensures Expected(Normal(path)) == if Misread(path) then [Remaining(path)[0]] + OrBlank(Remaining(path)[1..]) else Expected(path)
  {
    hide Remaining, Components, IsDrive, Normal, Rooted;
    ReadBack(path);
    RootedAfter(path);
    RemainingAfter(path);
    if Misread(path) {
      assert Below(Normal(path)) == Remaining(path)[1..];
    } else {
      assert Below(Normal(path)) == OrBlank(Remaining(path));
    }
  }

  /** Normalizing again changes nothing, unless the components of a relative path cancel out down to
      nothing but a drive. */
  lemma Idempotent(path: string)
    ensures Normal(Normal(path)) == Normal(path) <==> !(DriveLeft(path) && Level(Components(path)) == 1)
  {
    hide Remaining, Components, IsDrive, Normal, Rooted, DriveLeft, Level;
    MisreadExactly(path);
    var r := Remaining(path);
    ExpectedAfter(path);
    JoinExpected(Normal(path));
    JoinExpected(path);
    if Misread(path) {
      assert Expected(path) == r;
      if |r| == 1 {
        assert [r[0]] + OrBlank(r[1..]) == [r[0], ""];
        assert [r[0], ""][1..] == [""];
      } else {
        assert [r[0]] + OrBlank(r[1..]) == r;
      }
    }
  }

  /** No drive is left of a path without a colon. */
  lemma ColonFree(path: string)
    requires ':' !in path
    ensures !DriveLeft(path)
  {
    hide Collapse, Slashes, Remaining, Split, DriveLeft;
    MisreadExactly(path);
    SlashesFree(path, ':');
    CollapseFree(Slashes(path), ':');
    SplitFree(Collapse(Slashes(path)), '/', ':');
    RemainingShape(path);
    if Remaining(path) != [] {
      assert Remaining(path)[0] in Components(path);
      ColonInDrive(Remaining(path)[0]);
    }
  }

  lemma ColonInDrive(s: string)
    ensures IsDrive(s) ==> ':' in s
  {
  }

  const STRAY := ["x", "..", "c:"]

  /** A drive is left of the relative path `x/../c:`. */
  lemma DriveAppears()
    ensures DriveLeft(Join(STRAY, '/')) && Remaining(Join(STRAY, '/')) == ["c:"]
  {
    hide DriveLeft, Join, Remaining, IsDrive;
    StrayMisread();
    MisreadExactly(Join(STRAY, '/'));
  }

  lemma StrayMisread()
    ensures Misread(Join(STRAY, '/')) && Remaining(Join(STRAY, '/')) == ["c:"]
  {
    hide Split, Collapse, Slashes, Join;
    var path := Join(STRAY, '/');
    JoinFree(STRAY, '/', '\\');
    SplitInverse(STRAY, '/');
    CollapseFixed(path);
    AbsoluteByFirst(path);
    assert !IsDrive("x") && !Rooted(path);
    DriveRemains();
    assert "c:"[1] == ':' && IsDrive("c:");
  }

  lemma DriveRemains()
    ensures Reduce([], STRAY, false) == ["c:"]
  {
    assert STRAY[1..] == ["..", "c:"] && ["..", "c:"][1..] == ["c:"];
    assert ["x"][..0] == [] && ["c:"][1..] == [];
    assert Reduce([], ["c:"], false) == ["c:"];
    assert Reduce(["x"], ["..", "c:"], false) == ["c:"];
    assert Reduce([], STRAY, false) == ["c:"];
  }
}
