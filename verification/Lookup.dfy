/** Scope resolution: `Namespace.lookup` over a tree of reflection objects. */
module Lookup {
  import opened Strings
  import opened Wrappers

  /** Constructors of reflection objects. Root, types and services extend namespaces. */
  datatype Class = Root | Namespace | Type | Service | Enum | Field | MapField | OneOf | Method

  type Id = nat

  datatype Object = Object(
    class_: Class,
    name: string,
    parent: Option<Id>,
    fields: map<string, Id>,
    oneofs: map<string, Id>,
    methods: map<string, Id>,
    nested: map<string, Id>)
  {
    predicate IsScope() {
      class_ in {Root, Namespace, Type, Service}
    }
  }

  /** The object behind each reference. */
  datatype Tree = Tree(at: Id -> Object)

  /** Parents are namespaces, and above their children. */
  ghost predicate Ranked(t: Tree, rank: Id -> nat) {
    forall o :: match t.at(o).parent
      case None => true
      case Some(p) => t.at(p).IsScope() && rank(p) < rank(o)
  }

  ghost predicate Acyclic(t: Tree) {
    exists rank :: Ranked(t, rank)
  }

  ghost function Depth(t: Tree, o: Id): nat
    requires Acyclic(t)
  {
    var rank :| Ranked(t, rank);
    rank(o)
  }

  function Parent(t: Tree, o: Id): (r: Option<Id>)
    requires Acyclic(t)
    ensures r == t.at(o).parent
    ensures r.Some? ==> t.at(r.value).IsScope() && Depth(t, r.value) < Depth(t, o)
  {
    t.at(o).parent
  }

  /** The members of an object by name, as its class defines `get`. */
  function Get(t: Tree, o: Id, name: string): Option<Id> {
    var x := t.at(o);
    if x.class_ == Type && name in x.fields then Some(x.fields[name])
    else if x.class_ == Type && name in x.oneofs then Some(x.oneofs[name])
    else if x.class_ == Service && name in x.methods then Some(x.methods[name])
    else if name in x.nested then Some(x.nested[name])
    else None
  }

  function TopOf(t: Tree, o: Id): (r: Id)
    requires Acyclic(t)
    ensures t.at(r).parent.None? && (t.at(o).IsScope() ==> t.at(r).IsScope())
    decreases Depth(t, o)
  {
    match Parent(t, o)
    case None => o
    case Some(p) => TopOf(t, p)
  }

  /** The `root` getter. */
  method RootOf(t: Tree, o: Id) returns (ptr: Id)
    requires Acyclic(t)
    ensures ptr == TopOf(t, o)
  {
    hide Acyclic;
    ptr := o;
    while t.at(ptr).parent.Some?
      invariant TopOf(t, ptr) == TopOf(t, o)
      decreases Depth(t, ptr)
    {
      assert Parent(t, ptr).Some?;
      ptr := t.at(ptr).parent.value;
    }
  }

  predicate Allowed(t: Tree, o: Id, filter: Option<set<Class>>) {
    filter.None? || t.at(o).class_ in filter.value
  }

  /** `lookup` with a path given as an array. */
  function Lookup(t: Tree, o: Id, path: seq<string>, filter: Option<set<Class>>, parentAlreadyChecked: bool): (r: Option<Id>)
    requires Acyclic(t) && t.at(o).IsScope()
    decreases |path|, Depth(t, o)
  {
    if path == [] then Some(o)
    else if path[0] == "" then Lookup(t, TopOf(t, o), path[1..], filter, false)
    else
      var found := Get(t, o, path[0]);
      var below :=
        if found.None? then None
        else if |path| == 1 then (if Allowed(t, found.value, filter) then found else None)
        else if t.at(found.value).IsScope() then Lookup(t, found.value, path[1..], filter, true)
        else None;
      if below.Some? then below
      else if Parent(t, o).None? || parentAlreadyChecked then None
      else Lookup(t, Parent(t, o).value, path, filter, false)
  }

  /** `lookup` with a path given as a string. */
  function LookupString(t: Tree, o: Id, path: string, filter: Option<set<Class>>): Option<Id>
    requires Acyclic(t) && t.at(o).IsScope()
  {
    if path == "" then Some(o)
    else if path == "." then Some(TopOf(t, o))
    else Lookup(t, o, Split(path, '.'), filter, false)
  }

  // ---- what a path means ----

  /** The object that the whole path leads to from a scope, never upwards: each component names a
      member, the empty one the root, and a last name must be of an allowed class. */
  ghost function Walk(t: Tree, o: Id, path: seq<string>, filter: Option<set<Class>>): (r: Option<Id>)
    requires Acyclic(t)
    decreases |path|
  {
    if path == [] then Some(o)
    else if !t.at(o).IsScope() then None
    else if path[0] == "" then Walk(t, TopOf(t, o), path[1..], filter)
    else
      match Get(t, o, path[0])
      case None => None
      case Some(found) =>
        if |path| == 1 && !Allowed(t, found, filter) then None else Walk(t, found, path[1..], filter)
  }

  /** A scope and those around it, the innermost first. */
  ghost function Scopes(t: Tree, o: Id): (r: seq<Id>)
    requires Acyclic(t) && t.at(o).IsScope()
    decreases Depth(t, o)
  {
    [o] + (match Parent(t, o) case None => [] case Some(p) => Scopes(t, p))
  }

  /** With its flag, `lookup` only walks down. */
  lemma {:induction false} CheckedWalks(t: Tree, o: Id, path: seq<string>, filter: Option<set<Class>>, flag: bool)
    requires Acyclic(t) && t.at(o).IsScope()
    requires flag || Parent(t, o).None? || path == [] || path[0] == ""
    ensures Lookup(t, o, path, filter, flag) == Walk(t, o, path, filter)
    decreases |path|
  {
    hide Acyclic;
    if path != [] {
      if path[0] == "" {
        CheckedWalks(t, TopOf(t, o), path[1..], filter, false);
      } else {
        var found := Get(t, o, path[0]);
        if found.Some? && |path| > 1 && t.at(found.value).IsScope() {
          CheckedWalks(t, found.value, path[1..], filter, true);
        }
      }
    }
  }

  /** The path leads somewhere from the i-th of the scopes, and nowhere from those before it. */
  ghost predicate FirstAt(t: Tree, scopes: seq<Id>, i: nat, path: seq<string>, filter: Option<set<Class>>)
    requires Acyclic(t) && i <= |scopes|
  {
    && (i < |scopes| ==> Walk(t, scopes[i], path, filter).Some?)
    && forall j | 0 <= j < i :: Walk(t, scopes[j], path, filter) == None
  }

  /** A relative path is resolved in the nearest scope in which the whole of it leads to an object of
      an allowed class, and nowhere if there is none. */
  lemma {:induction false} NearestScope(t: Tree, o: Id, path: seq<string>, filter: Option<set<Class>>) returns (i: nat)
    requires Acyclic(t) && t.at(o).IsScope() && path != [] && path[0] != ""
    ensures var scopes := Scopes(t, o);
      && i <= |scopes| && FirstAt(t, scopes, i, path, filter)
      && Lookup(t, o, path, filter, false) == if i < |scopes| then Walk(t, scopes[i], path, filter) else None
    decreases Depth(t, o)
  {
    hide Acyclic, Walk;
    var scopes := Scopes(t, o);
    CheckedWalks(t, o, path, filter, true);
    i := 0;
    if Walk(t, o, path, filter).None? {
      match Parent(t, o)
      case None =>
        CheckedWalks(t, o, path, filter, false);
        i := 1;
      case Some(p) =>
        i := NearestScope(t, p, path, filter);
        ShiftFirst(t, scopes, i, path, filter);
        assert Lookup(t, o, path, filter, false) == Lookup(t, p, path, filter, false);
        i := i + 1;
    }
  }

  lemma ShiftFirst(t: Tree, scopes: seq<Id>, i: nat, path: seq<string>, filter: Option<set<Class>>)
    requires Acyclic(t) && i < |scopes|
    requires Walk(t, scopes[0], path, filter).None? && FirstAt(t, scopes[1..], i, path, filter)
    ensures FirstAt(t, scopes, i + 1, path, filter)
  {
    hide Acyclic, Walk;
    forall j | 0 <= j < i + 1
      ensures Walk(t, scopes[j], path, filter) == None
    {
      assert j > 0 ==> scopes[j] == scopes[1..][j - 1];
    }
  }

  /** A path with a leading dot is resolved at the root. */
  lemma AbsolutePath(t: Tree, o: Id, path: seq<string>, filter: Option<set<Class>>, flag: bool)
    requires Acyclic(t) && t.at(o).IsScope()
    ensures Lookup(t, o, [""] + path, filter, flag) == Walk(t, TopOf(t, o), path, filter)
  {
    hide Acyclic;
    assert ([""] + path)[1..] == path;
    CheckedWalks(t, TopOf(t, o), path, filter, false);
  }

  /** The filter holds of what is found, unless the path ends in a dot. */
  lemma {:induction false} FoundAllowed(t: Tree, o: Id, path: seq<string>, filter: Option<set<Class>>, flag: bool)
    requires Acyclic(t) && t.at(o).IsScope() && path != []
    requires path[|path| - 1] != "" && Lookup(t, o, path, filter, flag).Some?
    ensures Allowed(t, Lookup(t, o, path, filter, flag).value, filter)
    decreases |path|, Depth(t, o)
  {
    hide Acyclic;
    if path[0] == "" {
      FoundAllowed(t, TopOf(t, o), path[1..], filter, false);
    } else {
      var found := Get(t, o, path[0]);
      if found.Some? && |path| > 1 && t.at(found.value).IsScope() && Lookup(t, found.value, path[1..], filter, true).Some? {
        FoundAllowed(t, found.value, path[1..], filter, true);
      } else if !(found.Some? && |path| == 1 && Allowed(t, found.value, filter)) {
        FoundAllowed(t, Parent(t, o).value, path, filter, false);
      }
    }
  }

  /** A trailing dot leads to the root whatever the filter allows. */
  lemma TrailingDot(t: Tree, o: Id, name: string, filter: Option<set<Class>>)
    requires Acyclic(t) && t.at(o).IsScope() && name != "" && '.' !in name
    requires Get(t, o, name).Some? && t.at(Get(t, o, name).value).IsScope()
    ensures LookupString(t, o, name + ".", filter) == Some(TopOf(t, Get(t, o, name).value))
  {
    hide Acyclic;
    var path := [name, ""];
    assert path[1..] == [""] && [""][1..] == [];
    assert Join(path, '.') == name + ".";
    SplitInverse(path, '.');
    var found := Get(t, o, name).value;
    assert Lookup(t, found, [""], filter, true) == Some(TopOf(t, found));
    assert Lookup(t, o, path, filter, false) == Lookup(t, found, path[1..], filter, true);
  }

  /** The namespaces among the members of a scope have its root. */
  ghost predicate OneRoot(t: Tree)
    requires Acyclic(t)
  {
    forall o: Id, name: string | Get(t, o, name).Some? && t.at(Get(t, o, name).value).IsScope() ::
      TopOf(t, Get(t, o, name).value) == TopOf(t, o)
  }

  /** Whatever a path with an empty last component finds is the root. */
  lemma {:induction false} DotFindsRoot(t: Tree, o: Id, path: seq<string>, filter: Option<set<Class>>, flag: bool)
    requires Acyclic(t) && OneRoot(t) && t.at(o).IsScope()
    requires path != [] && path[|path| - 1] == "" && Lookup(t, o, path, filter, flag).Some?
    ensures Lookup(t, o, path, filter, flag) == Some(TopOf(t, o))
    decreases |path|, Depth(t, o)
  {
    hide Acyclic;
    if path[0] == "" {
      if |path| > 1 {
        DotFindsRoot(t, TopOf(t, o), path[1..], filter, false);
      }
    } else {
      var found := Get(t, o, path[0]);
      if found.Some? && t.at(found.value).IsScope() && Lookup(t, found.value, path[1..], filter, true).Some? {
        DotFindsRoot(t, found.value, path[1..], filter, true);
      } else {
        DotFindsRoot(t, Parent(t, o).value, path, filter, false);
      }
    }
  }

  /** What is found is of an allowed class, except for the scope itself, found by no component at all,
      and the root, found by an empty last component. */
  lemma Filtered(t: Tree, o: Id, path: seq<string>, filter: Option<set<Class>>, flag: bool)
    requires Acyclic(t) && OneRoot(t) && t.at(o).IsScope() && Lookup(t, o, path, filter, flag).Some?
    ensures Allowed(t, Lookup(t, o, path, filter, flag).value, filter)
      <==> if path == [] then Allowed(t, o, filter) else path[|path| - 1] != "" || Allowed(t, TopOf(t, o), filter)
  {
    hide Acyclic, OneRoot, Lookup;
    if path == [] {
      CheckedWalks(t, o, path, filter, flag);
    } else if path[|path| - 1] != "" {
      FoundAllowed(t, o, path, filter, flag);
    } else {
      DotFindsRoot(t, o, path, filter, flag);
    }
  }

  /** The same of a path given as a string: the empty path and paths that end in a dot escape the
      filter. */
  lemma FilteredString(t: Tree, o: Id, path: string, filter: Option<set<Class>>)
    requires Acyclic(t) && OneRoot(t) && t.at(o).IsScope() && LookupString(t, o, path, filter).Some?
    ensures Allowed(t, LookupString(t, o, path, filter).value, filter)
      <==> if path == "" then Allowed(t, o, filter) else path[|path| - 1] != '.' || Allowed(t, TopOf(t, o), filter)
  {
    hide Acyclic, OneRoot, Lookup, Allowed;
    if path != "" && path != "." {
      LastPart(path, '.');
      Filtered(t, o, Split(path, '.'), filter, false);
    }
  }

  /** No map of `x` that goes with its class holds the name. */
  predicate Missing(x: Object, name: string) {
    && name !in x.nested
    && (x.class_ == Type ==> name !in x.fields && name !in x.oneofs)
    && (x.class_ == Service ==> name !in x.methods)
  }

  /** What a lookup of a plain name sees of the maps of its scope, by the scope's class: a type's fields
      before its oneofs and these before what is nested in it, a service's methods before that, and
      otherwise just what is nested. If none of these maps holds the name, the parent is asked. */
  lemma FindsMember(t: Tree, o: Id, name: string)
    requires Acyclic(t) && t.at(o).class_ in {Root, Namespace, Type, Service} && name != "" && '.' !in name
    ensures var x := t.at(o); var r := LookupString(t, o, name, None);
      && (x.class_ == Type && name in x.fields ==> r == Some(x.fields[name]))
      && (x.class_ == Type && name !in x.fields && name in x.oneofs ==> r == Some(x.oneofs[name]))
      && (x.class_ == Type && name !in x.fields && name !in x.oneofs && name in x.nested ==> r == Some(x.nested[name]))
      && (x.class_ == Service && name in x.methods ==> r == Some(x.methods[name]))
      && (x.class_ == Service && name !in x.methods && name in x.nested ==> r == Some(x.nested[name]))
      && (x.class_ in {Root, Namespace} && name in x.nested ==> r == Some(x.nested[name]))
    ensures Missing(t.at(o), name) && Parent(t, o).None? ==> LookupString(t, o, name, None) == None
    ensures Missing(t.at(o), name) && Parent(t, o).Some?
      ==> LookupString(t, o, name, None) == LookupString(t, Parent(t, o).value, name, None)
  {
    hide Acyclic;
    SplitPart(name, "", '.');
    assert Parent(t, o) == t.at(o).parent;
    assert Lookup(t, o, [name], None, false)
        == if Get(t, o, name).Some? then Get(t, o, name)
           else if Parent(t, o).None? then None else Lookup(t, Parent(t, o).value, [name], None, false);
  }

  // ---- full names ----

  ghost function Names(t: Tree, o: Id): seq<string>
    requires Acyclic(t)
    decreases Depth(t, o)
  {
    (match Parent(t, o) case None => [] case Some(p) => Names(t, p)) + [t.at(o).name]
  }

  /** The `fullName` getter. */
  method FullName(t: Tree, o: Id) returns (name: string)
    requires Acyclic(t)
    ensures name == Join(Names(t, o), '.')
  {
    hide Acyclic, Join;
    var path := [t.at(o).name];
    var ptr := t.at(o).parent;
    while ptr.Some?
      invariant Names(t, o) == (if ptr.Some? then Names(t, ptr.value) else []) + path
      decreases if ptr.Some? then 1 + Depth(t, ptr.value) else 0
    {
      path := [t.at(ptr.value).name] + path;
      assert Parent(t, ptr.value) == t.at(ptr.value).parent;
      ptr := t.at(ptr.value).parent;
    }
    assert [] + path == path;
    return Join(path, '.');
  }

  /** Some map of `x` that goes with its class holds the name, and each that does holds `o` there. */
  predicate Holds(x: Object, name: string, o: Id) {
    && !Missing(x, name)
    && (name in x.nested ==> x.nested[name] == o)
    && (x.class_ == Type && name in x.fields ==> x.fields[name] == o)
    && (x.class_ == Type && name in x.oneofs ==> x.oneofs[name] == o)
    && (x.class_ == Service && name in x.methods ==> x.methods[name] == o)
  }

  /** Every object is in its parent's maps under its own name, names are identifiers, and the
      object without a parent has the empty name that the `Root` constructor gives it. */
  ghost predicate Tidy(t: Tree) {
    && Acyclic(t)
    && forall o: Id :: match Parent(t, o)
         case None => t.at(o).name == ""
         case Some(p) => t.at(o).name != "" && '.' !in t.at(o).name && Holds(t.at(p), t.at(o).name, o)
  }

  lemma HoldsGet(t: Tree, p: Id, name: string, o: Id)
    requires Holds(t.at(p), name, o)
    ensures Get(t, p, name) == Some(o)
  {
  }

  lemma {:induction false} WalkNames(t: Tree, o: Id, rest: seq<string>, filter: Option<set<Class>>)
    requires Tidy(t) && (rest == [] ==> Allowed(t, o, filter))
    ensures Names(t, o)[0] == "" && Plain(Names(t, o), '.')
    ensures Walk(t, TopOf(t, o), Names(t, o)[1..] + rest, filter) == Walk(t, o, rest, filter)
    decreases Depth(t, o)
  {
    hide Acyclic, Holds, Get;
    match Parent(t, o)
    case None =>
      assert Names(t, o) == [""];
      assert Names(t, o)[1..] + rest == rest;
    case Some(p) =>
      var name := t.at(o).name;
      HoldsGet(t, p, name, o);
      WalkNames(t, p, [name] + rest, filter);
      assert Names(t, o)[1..] + rest == Names(t, p)[1..] + ([name] + rest);
      assert ([name] + rest)[1..] == rest;
  }

  /** From anywhere in the tree, an object's full name leads to that object, if its class is allowed
      and it is not the root, whose full name is empty and so leads to where the search started. */
  lemma FullNameFinds(t: Tree, o: Id, from: Id, filter: Option<set<Class>>)
    requires Tidy(t) && t.at(from).IsScope() && TopOf(t, from) == TopOf(t, o)
    ensures LookupString(t, from, Join(Names(t, o), '.'), filter)
         == if t.at(o).parent.None? then Some(from) else if Allowed(t, o, filter) then Some(o) else None
  {
    hide Acyclic, Holds, Get;
    var path := Names(t, o);
    match Parent(t, o)
    case None =>
      assert path == [""];
    case Some(p) =>
      var name := t.at(o).name;
      HoldsGet(t, p, name, o);
      WalkNames(t, p, [name], filter);
      SplitInverse(path, '.');
      assert path[1..] == Names(t, p)[1..] + [name];
      assert path == [""] + path[1..];
      AbsolutePath(t, from, path[1..], filter, false);
  }
}
