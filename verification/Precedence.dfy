/** The operator-precedence parser of the bundled esprima. */
module Precedence {
  import opened Wrappers

  datatype Kind = Punctuator | Keyword | Other

  /** What the token stream holds: an operand, with the offsets of its first and past its last token,
      or any token that follows an operand. */
  datatype Item =
    | Operand(id: nat, start: nat, end: nat)
    | Token(kind: Kind, value: string, start: nat, end: nat)

  datatype Expr =
    | Primary(id: nat, start: nat, end: nat)
    | Binary(operator: string, left: Expr, right: Expr, start: nat, end: nat)

  const PRECEDENCE: map<string, nat> := map[
    ")" := 0, ";" := 0, "," := 0, "=" := 0, "]" := 0, "||" := 1, "&&" := 2, "|" := 3, "^" := 4, "&" := 5,
    "==" := 6, "!=" := 6, "===" := 6, "!==" := 6, "<" := 7, ">" := 7, "<=" := 7, ">=" := 7,
    "<<" := 8, ">>" := 8, ">>>" := 8, "+" := 9, "-" := 9, "*" := 11, "/" := 11, "%" := 11]

  /** `binaryPrecedence`. */
  function Prec(token: Item, allowIn: bool): nat {
    match token
    case Operand(_, _, _) => 0
    case Token(kind, value, _, _) =>
      if kind == Punctuator then (if value in PRECEDENCE then PRECEDENCE[value] else 0)
      else if kind == Keyword && (value == "instanceof" || (allowIn && value == "in")) then 7
      else 0
  }

  /** How tightly an operator that occurs in a tree binds. */
  function Level(operator: string): nat {
    if operator in PRECEDENCE then PRECEDENCE[operator] else 7
  }

  // ---- trees ----

  datatype Symbol = Atom(id: nat, start: nat, end: nat) | Sign(operator: string)

  /** The in-order reading of a tree. */
  function Flat(t: Expr): (r: seq<Symbol>)
    ensures |r| > 0
  {
    match t
    case Primary(id, start, end) => [Atom(id, start, end)]
    case Binary(operator, left, right, _, _) => Flat(left) + [Sign(operator)] + Flat(right)
  }

  function Symbols(items: seq<Item>): seq<Symbol> {
    seq(|items|, i requires 0 <= i < |items| =>
      match items[i]
      case Operand(id, start, end) => Atom(id, start, end)
      case Token(_, value, _, _) => Sign(value))
  }

  /** The root binds at least as tightly as `level`; an operand does in any case. */
  predicate Binds(t: Expr, level: nat) {
    t.Binary? ==> Level(t.operator) >= level
  }

  /** Left children bind at least as tightly as their parent, right children more tightly. */
  predicate Shaped(t: Expr) {
    t.Binary? ==>
      && Binds(t.left, Level(t.operator)) && Binds(t.right, Level(t.operator) + 1)
      && Shaped(t.left) && Shaped(t.right)
  }

  /** Every node starts where its leftmost operand does and ends where its rightmost one does. */
  predicate Placed(t: Expr) {
    t.Binary? ==> t.start == t.left.start && t.end == t.right.end && Placed(t.left) && Placed(t.right)
  }

  lemma {:induction false} FlatLevels(t: Expr, i: nat)
    requires Shaped(t) && i < |Flat(t)| && Flat(t)[i].Sign?
    ensures Binds(t, 0) && t.Binary?
    ensures Level(Flat(t)[i].operator) >= Level(t.operator)
    ensures i > |Flat(t.left)| ==> Level(Flat(t)[i].operator) > Level(t.operator)
  {
    hide Level;
    if t.Binary? {
      var n := |Flat(t.left)|;
      if i < n {
        FlatLevels(t.left, i);
      } else if i > n {
        FlatLevels(t.right, i - n - 1);
      }
    }
  }

  /** The reading determines the tree. */
  lemma {:induction false} TreeUnique(t: Expr, u: Expr)
    requires Shaped(t) && Shaped(u) && Placed(t) && Placed(u) && Flat(t) == Flat(u)
    ensures t == u
    decreases t
  {
    hide Level;
    match t
    case Primary(_, _, _) =>
      if u.Binary? {
        assert false;
      }
    case Binary(_, _, _, _, _) =>
      assert |Flat(t)| == |Flat(t.left)| + 1 + |Flat(t.right)|;
      var n, m := |Flat(t.left)|, |Flat(u.left)|;
      assert Flat(t)[n] == Sign(t.operator) && Flat(u)[m] == Sign(u.operator);
      FlatLevels(t, m);
      FlatLevels(u, n);
      assert n == m;
      assert Flat(t.left) == Flat(t)[..n] == Flat(u.left);
      assert Flat(t.right) == Flat(t)[n + 1..] == Flat(u.right);
      TreeUnique(t.left, u.left);
      TreeUnique(t.right, u.right);
  }

  // ---- the order of the operators ----

  /** The binary operators of ECMAScript from the loosest to the tightest (sections 11.5 to 11.11 of
      ECMA-262, 5.1 edition, from the last one backwards). */
  const GROUPS: seq<seq<string>> := [
    ["||"], ["&&"], ["|"], ["^"], ["&"], ["==", "!=", "===", "!=="],
    ["<", ">", "<=", ">=", "instanceof", "in"], ["<<", ">>", ">>>"], ["+", "-"], ["*", "/", "%"]]

  /** The token is an operator of group `g`. */
  predicate InGroup(token: Item, allowIn: bool, g: nat) {
    && g < |GROUPS| && token.Token? && token.value in GROUPS[g]
    && (if token.value in ["instanceof", "in"] then token.kind == Keyword else token.kind == Punctuator)
    && (token.value == "in" ==> allowIn)
  }

  lemma GroupPrec(token: Item, allowIn: bool, g: nat)
    requires InGroup(token, allowIn, g)
    ensures token.Token? && Level(token.value) == Prec(token, allowIn)
    ensures g < 10 && Prec(token, allowIn) == if g < 9 then g + 1 else 11
  {
    if g < 5 {
    } else if g < 7 {
    } else {
    }
  }

  /** Operators of one group bind equally, those of a later group more tightly. */
  lemma GroupOrder(a: Item, b: Item, allowIn: bool, g: nat, h: nat)
    requires InGroup(a, allowIn, g) && InGroup(b, allowIn, h)
    ensures Prec(a, allowIn) < Prec(b, allowIn) <==> g < h
    ensures Prec(a, allowIn) == Prec(b, allowIn) <==> g == h
  {
    hide InGroup, Prec, Level;
    GroupPrec(a, allowIn, g);
    GroupPrec(b, allowIn, h);
  }

  /** A token continues a chain if and only if it is an operator of some group. */
  lemma Operators(token: Item, allowIn: bool)
    ensures Prec(token, allowIn) > 0 <==> exists g :: InGroup(token, allowIn, g)
  {
    if Prec(token, allowIn) > 0 {
      var level := Prec(token, allowIn);
      PrecGroup(token, allowIn);
      assert InGroup(token, allowIn, if level == 11 then 9 else level - 1);
    }
    if g :| InGroup(token, allowIn, g) {
      GroupPrec(token, allowIn, g);
    }
  }

  lemma PrecGroup(token: Item, allowIn: bool)
    requires Prec(token, allowIn) > 0
    ensures InGroup(token, allowIn, if Prec(token, allowIn) == 11 then 9 else Prec(token, allowIn) - 1)
  {
  }

  // ---- the stacks ----

  /** An element of the stack of nodes and operators. */
  datatype Entry = Node(expr: Expr) | Sym(operator: string, prec: nat)

  /** Nodes alternate with operators of rising precedence, each node fits between its neighbours, and
      the markers are the starts of the nodes. */
  ghost predicate Good(a: seq<Entry>, n: seq<nat>)
    decreases |a|
  {
    |a| == 2 * |n| - 1 && TopFits(a, n) && (|a| > 1 ==> Good(a[..|a| - 2], n[..|n| - 1]))
  }

  /** The part of `Good` about the topmost node and the operator below it. */
  ghost predicate TopFits(a: seq<Entry>, n: seq<nat>)
    requires |a| == 2 * |n| - 1
  {
    && a[|a| - 1].Node?
    && var top := a[|a| - 1].expr;
    && n[|n| - 1] == top.start && Shaped(top) && Placed(top)
    && (|a| > 1 ==>
          && a[|a| - 2].Sym? && a[|a| - 2].prec == Level(a[|a| - 2].operator) > 0
          && a[|a| - 3].Node? && Binds(a[|a| - 3].expr, a[|a| - 2].prec) && Binds(top, a[|a| - 2].prec + 1)
          && (|a| > 3 ==> a[|a| - 4].Sym? && a[|a| - 2].prec > a[|a| - 4].prec))
  }

  ghost function Reading(a: seq<Entry>): seq<Symbol> {
    if a == [] then []
    else Reading(a[..|a| - 1]) + (match a[|a| - 1] case Node(e) => Flat(e) case Sym(operator, _) => [Sign(operator)])
  }

  lemma GoodTop(a: seq<Entry>, n: seq<nat>)
    requires Good(a, n)
    ensures |a| == 2 * |n| - 1 && a[|a| - 1].Node?
    ensures |a| > 2 ==> a[|a| - 2].Sym? && a[|a| - 3].Node?
  {
    hide Level;
  }

  lemma ReplaceTop(a: seq<Entry>, n: seq<nat>, e: Expr)
    requires Good(a, n) && Shaped(e) && Placed(e) && e.start == n[|n| - 1]
    requires |a| > 1 ==> Binds(e, a[|a| - 2].prec + 1)
    ensures Good(a[..|a| - 1] + [Node(e)], n)
  {
    hide Level;
    var b := a[..|a| - 1] + [Node(e)];
    if |a| > 1 {
      assert b[..|b| - 2] == a[..|a| - 2];
    }
  }

  /** What replacing the topmost two nodes and the operator between them by one node leaves. */
  ghost predicate Reduction(a: seq<Entry>, n: seq<nat>, node: Expr)
    requires Good(a, n) && |a| > 2
  {
    hide Good, Level;
    GoodTop(a, n);
    node == Binary(a[|a| - 2].operator, a[|a| - 3].expr, a[|a| - 1].expr, n[|n| - 2], a[|a| - 1].expr.end)
  }

  lemma ReduceGood(a: seq<Entry>, n: seq<nat>, node: Expr)
    requires Good(a, n) && |a| > 2 && Reduction(a, n, node)
    ensures Good(a[..|a| - 3] + [Node(node)], n[..|n| - 1])
    ensures Level(node.operator) == a[|a| - 2].prec
  {
    hide Level;
    var low, m := a[..|a| - 2], n[..|n| - 1];
    assert Good(low, m);
    assert node.left == low[|low| - 1].expr && m[|m| - 1] == n[|n| - 2];
    assert low[..|low| - 1] == a[..|a| - 3];
    ReplaceTop(low, m, node);
  }

  lemma ReduceReading(a: seq<Entry>, n: seq<nat>, node: Expr)
    requires Good(a, n) && |a| > 2 && Reduction(a, n, node)
    ensures Reading(a[..|a| - 3] + [Node(node)]) == Reading(a)
  {
    hide Good, Level;
    GoodTop(a, n);
    var low := a[..|a| - 2];
    var b := a[..|a| - 3] + [Node(node)];
    assert low[..|low| - 1] == a[..|a| - 3] == b[..|b| - 1];
    assert a[..|a| - 1][..|a| - 2] == low;
    assert Reading(a[..|a| - 1]) == Reading(low) + [Sign(node.operator)];
    assert Reading(low) == Reading(a[..|a| - 3]) + Flat(node.left);
  }

  /** Pushing an operator and an operand. */
  lemma PushPair(a: seq<Entry>, n: seq<nat>, operator: string, prec: nat, operand: Expr)
    requires Good(a, n) && operand.Primary? && prec == Level(operator) > 0
    requires Binds(a[|a| - 1].expr, prec) && (|a| > 1 ==> prec > a[|a| - 2].prec)
    ensures var b := a + [Sym(operator, prec)] + [Node(operand)];
      Good(b, n + [operand.start]) && Reading(b) == Reading(a) + [Sign(operator)] + Flat(operand)
  {
    hide Level;
    var b := a + [Sym(operator, prec)] + [Node(operand)];
    assert b[..|b| - 2] == a && b[..|b| - 1] == a + [Sym(operator, prec)];
    assert (a + [Sym(operator, prec)])[..|a|] == a;
    assert (n + [operand.start])[..|n|] == n;
  }

  lemma PrecLevel(token: Item, allowIn: bool)
    ensures Prec(token, allowIn) > 0 ==> token.Token? && Prec(token, allowIn) == Level(token.value)
  {
  }

  // ---- the parser ----

  /** The end of the chain of operands and operators that starts at `p`, if each operator in it is
      followed by an operand. */
  function ChainEnd(items: seq<Item>, p: nat, allowIn: bool): (r: Option<nat>)
    ensures r.Some? ==> p < r.value <= |items|
    decreases |items| - p
  {
    if p >= |items| || items[p].Token? then None
    else if p + 1 < |items| && Prec(items[p + 1], allowIn) > 0 then ChainEnd(items, p + 2, allowIn)
    else Some(p + 1)
  }

  lemma SingleGood(t: Expr, level: nat)
    requires t.Primary?
    ensures Shaped(t) && Placed(t) && Good([Node(t)], [t.start]) && Reading([Node(t)]) == Flat(t)
    ensures Binds(t, level)
  {
    assert [Node(t)][..0] == [];
  }

  lemma FirstSymbol(items: seq<Item>, p: nat)
    requires p < |items| && items[p].Operand?
    ensures Symbols(items[p..p + 1]) == Flat(Primary(items[p].id, items[p].start, items[p].end))
  {
  }

  lemma PairSymbols(items: seq<Item>, q: nat)
    requires 2 <= q <= |items| && items[q - 2].Token? && items[q - 1].Operand?
    ensures var operand := items[q - 1];
      Symbols(items[q - 2..q]) == [Sign(items[q - 2].value)] + Flat(Primary(operand.id, operand.start, operand.end))
  {
  }

  lemma NoSymbols(items: seq<Item>, p: nat)
    requires p <= |items|
    ensures Symbols(items[p..p]) == []
  {
  }

  lemma JoinSymbols(items: seq<Item>, p: nat, q: nat, r: nat)
    requires p <= q <= r <= |items|
    ensures Symbols(items[p..r]) == Symbols(items[p..q]) + Symbols(items[q..r])
  {
  }

  lemma ChainStep(items: seq<Item>, p: nat, allowIn: bool)
    ensures p >= |items| || items[p].Token? ==> ChainEnd(items, p, allowIn) == None
    ensures p < |items| && items[p].Operand? && p + 1 < |items| && Prec(items[p + 1], allowIn) > 0
      ==> ChainEnd(items, p, allowIn) == ChainEnd(items, p + 2, allowIn)
    ensures p < |items| && items[p].Operand? && (p + 1 == |items| || Prec(items[p + 1], allowIn) == 0)
      ==> ChainEnd(items, p, allowIn) == Some(p + 1)
  {
  }

  class Parser {
    const items: seq<Item>
    const allowIn: bool
    /** The lookahead token is the one at `pos`, and the last consumed one ends at `lastEnd`. */
    var pos: nat
    var lastEnd: nat

    constructor (items: seq<Item>, allowIn: bool)
      ensures this.items == items && this.allowIn == allowIn && pos == 0
    {
      this.items := items;
      this.allowIn := allowIn;
      pos := 0;
      lastEnd := 0;
    }

    method NextToken()
      requires pos < |items|
      modifies this
      ensures pos == old(pos) + 1 && lastEnd == items[old(pos)].end
    {
      lastEnd := items[pos].end;
      pos := pos + 1;
    }

    /** The start of the lookahead token; past the end it does not matter. */
    function Start(): nat
      reads this
    {
      if pos < |items| then items[pos].start else lastEnd
    }

    function LookaheadPrec(): nat
      reads this
    {
      if pos < |items| then Prec(items[pos], allowIn) else 0
    }

    /** Stands for `parseExponentiationExpression`: an operand, or an unexpected token. */
    method ParseOperand() returns (r: Option<Expr>)
      modifies this
      ensures if old(pos) < |items| && items[old(pos)].Operand?
              then pos == old(pos) + 1 && lastEnd == items[old(pos)].end
                && r == Some(Primary(items[old(pos)].id, items[old(pos)].start, items[old(pos)].end))
              else r == None
    {
      if pos >= |items| {
        return None;
      }
      match items[pos]
      case Token(_, _, _, _) => return None;
      case Operand(id, start, end) =>
        NextToken();
        return Some(Primary(id, start, end));
    }

    /** The inner loop: reduces as long as the operator on the stack binds at least as tightly as the
        one that comes. */
    method Reduce(stack: seq<Entry>, markers: seq<nat>, i: nat) returns (a: seq<Entry>, n: seq<nat>)
      requires Good(stack, markers) && stack[|stack| - 1].expr.end == lastEnd && Binds(stack[|stack| - 1].expr, i)
      ensures Good(a, n) && a[|a| - 1].expr.end == lastEnd && Binds(a[|a| - 1].expr, i)
      ensures |a| > 2 ==> a[|a| - 2].Sym? && i > a[|a| - 2].prec
      ensures Reading(a) == Reading(stack)
    {
      hide Good, Reading, Level, Prec;
      a, n := stack, markers;
      GoodTop(a, n);
      while |a| > 2 && i <= a[|a| - 2].prec
        invariant Good(a, n) && |a| == 2 * |n| - 1 && a[|a| - 1].Node?
        invariant |a| > 2 ==> a[|a| - 2].Sym? && a[|a| - 3].Node?
        invariant Binds(a[|a| - 1].expr, i) && a[|a| - 1].expr.end == lastEnd
        invariant Reading(a) == Reading(stack)
      {
        var right := a[|a| - 1].expr;
        var operator := a[|a| - 2].operator;
        var left := a[|a| - 3].expr;
        var node := Binary(operator, left, right, n[|n| - 2], lastEnd);
        ReduceGood(a, n, node);
        ReduceReading(a, n, node);
        a := a[..|a| - 3] + [Node(node)];
        n := n[..|n| - 1];
        GoodTop(a, n);
      }
    }

    /** The final loop: joins what is left on the stack from the top. */
    method Fold(a: seq<Entry>, markers: seq<nat>) returns (t: Expr)
      requires Good(a, markers) && a[|a| - 1].expr.end == lastEnd
      ensures Flat(t) == Reading(a) && Shaped(t) && Placed(t)
    {
      hide Good, Reading, Level, Prec;
      GoodTop(a, markers);
      var h := |a| - 1;
      t := a[h].expr;
      var n := markers[..|markers| - 1];
      GoodLast(a, markers);
      while h > 1
        invariant 0 <= h < |a| && |n| == h / 2 && h % 2 == 0
        invariant Good(a[..h] + [Node(t)], n + [t.start]) && t.end == lastEnd
        invariant Reading(a[..h] + [Node(t)]) == Reading(a)
      {
        ghost var b, m := a[..h] + [Node(t)], n + [t.start];
        GoodTop(b, m);
        assert b[h - 1] == a[h - 1] && b[h - 2] == a[h - 2];
        var node := Binary(a[h - 1].operator, a[h - 2].expr, t, n[|n| - 1], lastEnd);
        ReduceGood(b, m, node);
        ReduceReading(b, m, node);
        assert b[..|b| - 3] == a[..h - 2] && m[..|m| - 1] == n;
        assert n == n[..|n| - 1] + [node.start];
        t := node;
        n := n[..|n| - 1];
        h := h - 2;
      }
      assert a[..h] == [] && [] + [Node(t)] == [Node(t)];
      GoodSingle(t, n + [t.start]);
    }

    /** Consumes an operator of precedence `i` and its right operand and pushes them; without an
        operand an exception leaves the parser. */
    method Shift(stack: seq<Entry>, markers: seq<nat>, i: nat) returns (a: seq<Entry>, n: seq<nat>, thrown: bool)
      requires pos < |items| && Prec(items[pos], allowIn) == i > 0
      requires Good(stack, markers) && Binds(stack[|stack| - 1].expr, i)
      requires |stack| > 2 ==> stack[|stack| - 2].Sym? && i > stack[|stack| - 2].prec
      modifies this
      ensures thrown <==> !(old(pos) + 1 < |items| && items[old(pos) + 1].Operand?)
      ensures !thrown ==>
        && pos == old(pos) + 2 && OnTop(a, n)
        && Reading(a) == Reading(stack) + Symbols(items[old(pos)..pos])
    {
      hide Good, Reading, Level, Prec, Symbols, Flat, Shaped, Placed, Binds;
      GoodTop(stack, markers);
      var token := items[pos];
      PrecLevel(token, allowIn);
      NextToken();
      a := stack + [Sym(token.value, i)];
      n := markers + [Start()];
      var operand := ParseOperand();
      if operand.None? {
        thrown := true;
        return;
      }
      thrown := false;
      a := a + [Node(operand.value)];
      PushPair(stack, markers, token.value, i, operand.value);
      PairSymbols(items, pos);
    }

    /** The parser has just consumed the operand on top of the stack. */
    ghost predicate OnTop(a: seq<Entry>, n: seq<nat>)
      reads this
    {
      && Good(a, n) && |a| > 0 && a[|a| - 1].Node? && a[|a| - 1].expr.Primary? && a[|a| - 1].expr.end == lastEnd
      && 0 < pos <= |items| && items[pos - 1].Operand?
    }

    /** The outer loop: goes on as long as an operator comes. */
    method ParseRest(stack: seq<Entry>, markers: seq<nat>) returns (a: seq<Entry>, n: seq<nat>, thrown: bool)
      requires OnTop(stack, markers)
      modifies this
      ensures thrown <==> ChainEnd(items, old(pos) - 1, allowIn).None?
      ensures !thrown ==>
        && OnTop(a, n) && ChainEnd(items, old(pos) - 1, allowIn) == Some(pos)
        && old(pos) <= pos && Reading(a) == Reading(stack) + Symbols(items[old(pos)..pos])
    {
      hide Good, Reading, Level, Prec, Symbols, Flat, Shaped, Placed, ChainEnd, Binds;
      a, n := stack, markers;
      ghost var p := pos;
      NoSymbols(items, p);
      while true
        invariant p <= pos && OnTop(a, n)
        invariant ChainEnd(items, pos - 1, allowIn) == ChainEnd(items, p - 1, allowIn)
        invariant Reading(a) == Reading(stack) + Symbols(items[p..pos])
        decreases |items| - pos
      {
        ChainStep(items, pos - 1, allowIn);
        var i := LookaheadPrec();
        if i <= 0 {
          return a, n, false;
        }
        SingleGood(a[|a| - 1].expr, i);
        a, n := Reduce(a, n, i);
        ChainStep(items, pos + 1, allowIn);
        a, n, thrown := Shift(a, n, i);
        if thrown {
          return;
        }
        JoinSymbols(items, p, pos - 2, pos);
      }
    }

    /** Consumes the longest chain of operands and operators and returns its tree, which `TreeUnique`
        says is the only one of that shape. */
    method ParseBinaryExpression() returns (r: Option<Expr>)
      modifies this
      ensures match ChainEnd(items, old(pos), allowIn)
              case None => r == None
              case Some(end) =>
                && r.Some? && pos == end
                && Flat(r.value) == Symbols(items[old(pos)..end])
                && Shaped(r.value) && Placed(r.value)
    {
      hide Good, Reading, Level, Prec, Symbols, Flat, Shaped, Placed, ChainEnd, Binds;
      ghost var p := pos;
      ChainStep(items, p, allowIn);
      var n := [Start()];
      var first := ParseOperand();
      if first.None? {
        return None;
      }
      var i := LookaheadPrec();
      SingleGood(first.value, i);
      FirstSymbol(items, p);
      if i <= 0 {
        return first;
      }
      var a := [Node(first.value)];
      var thrown;
      ChainStep(items, pos + 1, allowIn);
      a, n, thrown := Shift(a, n, i);
      if thrown {
        return None;
      }
      JoinSymbols(items, p, pos - 2, pos);
      ghost var q := pos;
      a, n, thrown := ParseRest(a, n);
      if thrown {
        return None;
      }
      JoinSymbols(items, p, q, pos);
      var t := Fold(a, n);
      return Some(t);
    }
  }

  lemma GoodLast(a: seq<Entry>, n: seq<nat>)
    requires Good(a, n)
    ensures n == n[..|n| - 1] + [a[|a| - 1].expr.start] && a == a[..|a| - 1] + [a[|a| - 1]]
  {
    hide Level;
  }

  lemma GoodSingle(t: Expr, n: seq<nat>)
    requires Good([Node(t)], n)
    ensures Shaped(t) && Placed(t) && Reading([Node(t)]) == Flat(t)
  {
    hide Level;
    assert Reading([Node(t)][..0]) == [];
  }
  // ---- what is parsed, in terms of the groups ----

  /** `x o1 y o2 z`. */
  predicate ThreeOperands(items: seq<Item>, allowIn: bool, g: nat, h: nat) {
    && |items| == 5 && items[0].Operand? && items[2].Operand? && items[4].Operand?
    && InGroup(items[1], allowIn, g) && InGroup(items[3], allowIn, h)
  }

  function Leaf(item: Item): Expr
    requires item.Operand?
  {
    Primary(item.id, item.start, item.end)
  }

  function Joining(token: Item, left: Expr, right: Expr): Expr
    requires token.Token?
  {
    Binary(token.value, left, right, left.start, right.end)
  }

  lemma ThreeSymbols(items: seq<Item>, allowIn: bool, g: nat, h: nat)
    requires ThreeOperands(items, allowIn, g, h)
    ensures items[1].Token? && items[3].Token? && ChainEnd(items, 0, allowIn) == Some(5)
    ensures Symbols(items) == Flat(Leaf(items[0])) + [Sign(items[1].value)]
                              + (Flat(Leaf(items[2])) + [Sign(items[3].value)] + Flat(Leaf(items[4])))
  {
    hide InGroup, Prec;
    GroupPrec(items[1], allowIn, g);
    GroupPrec(items[3], allowIn, h);
    ChainStep(items, 0, allowIn);
    ChainStep(items, 2, allowIn);
    ChainStep(items, 4, allowIn);
  }

  /** The tree that joins three operands to the right is shaped where the second operator binds more
      tightly, and the one that joins them to the left elsewhere. */
  lemma Nested(x: Expr, a: Item, y: Expr, b: Item, z: Expr)
    requires x.Primary? && y.Primary? && z.Primary? && a.Token? && b.Token?
    ensures var right := Joining(a, x, Joining(b, y, z));
      && Flat(right) == Flat(x) + [Sign(a.value)] + (Flat(y) + [Sign(b.value)] + Flat(z)) && Placed(right)
      && (Level(a.value) < Level(b.value) ==> Shaped(right))
    ensures var left := Joining(b, Joining(a, x, y), z);
      && Flat(left) == Flat(x) + [Sign(a.value)] + (Flat(y) + [Sign(b.value)] + Flat(z)) && Placed(left)
      && (Level(a.value) >= Level(b.value) ==> Shaped(left))
  {
    hide Level;
    assert Flat(Joining(a, x, y)) == Flat(x) + [Sign(a.value)] + Flat(y);
    assert Flat(Joining(b, y, z)) == Flat(y) + [Sign(b.value)] + Flat(z);
    assert Shaped(Joining(a, x, y)) && Shaped(Joining(b, y, z)) && Placed(Joining(a, x, y)) && Placed(Joining(b, y, z));
  }

  /** The second operator takes the middle operand if and only if its group comes later. */
  lemma ThreeTree(items: seq<Item>, allowIn: bool, g: nat, h: nat, t: Expr)
    requires ThreeOperands(items, allowIn, g, h)
    requires Flat(t) == Symbols(items) && Shaped(t) && Placed(t)
    ensures items[1].Token? && items[3].Token?
    ensures var x, y, z := Leaf(items[0]), Leaf(items[2]), Leaf(items[4]);
      t == if g < h then Joining(items[1], x, Joining(items[3], y, z)) else Joining(items[3], Joining(items[1], x, y), z)
  {
    hide InGroup, Level, Prec, Symbols, Flat, Shaped, Placed;
    GroupPrec(items[1], allowIn, g);
    GroupPrec(items[3], allowIn, h);
    GroupOrder(items[1], items[3], allowIn, g, h);
    ThreeSymbols(items, allowIn, g, h);
    var x, y, z := Leaf(items[0]), Leaf(items[2]), Leaf(items[4]);
    Nested(x, items[1], y, items[3], z);
    TreeUnique(t, if g < h then Joining(items[1], x, Joining(items[3], y, z)) else Joining(items[3], Joining(items[1], x, y), z));
  }

  /** The parser on three operands. */
  method ParseThree(items: seq<Item>, allowIn: bool, ghost g: nat, ghost h: nat) returns (t: Expr)
    requires ThreeOperands(items, allowIn, g, h)
    ensures items[1].Token? && items[3].Token?
    ensures var x, y, z := Leaf(items[0]), Leaf(items[2]), Leaf(items[4]);
      t == if g < h then Joining(items[1], x, Joining(items[3], y, z)) else Joining(items[3], Joining(items[1], x, y), z)
  {
    hide InGroup, Symbols, Flat, Shaped, Placed, ChainEnd;
    ThreeSymbols(items, allowIn, g, h);
    var parser := new Parser(items, allowIn);
    var r := parser.ParseBinaryExpression();
    assert items[0..5] == items;
    ThreeTree(items, allowIn, g, h, r.value);
    return r.value;
  }

  /** On chains of any length: the operator at the root is of the first group of all, and those of its
      group all stand before it. */
  lemma RootOperator(items: seq<Item>, allowIn: bool, t: Expr, i: nat, g: nat, h: nat)
    requires Flat(t) == Symbols(items) && Shaped(t) && t.Binary?
    requires var n := |Flat(t.left)|; n < |items| && InGroup(items[n], allowIn, g)
    requires i < |items| && InGroup(items[i], allowIn, h)
    ensures g <= h && (i > |Flat(t.left)| ==> g < h)
  {
    hide InGroup, Level, Prec;
    var n := |Flat(t.left)|;
    GroupPrec(items[n], allowIn, g);
    GroupPrec(items[i], allowIn, h);
    GroupOrder(items[n], items[i], allowIn, g, h);
    assert Flat(t)[n] == Sign(t.operator);
    FlatLevels(t, i);
  }
}
