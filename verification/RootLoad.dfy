/** The asynchronous `Root.load` as a step system: one call starts it, and each later step delivers
    one pending file, in any order. */
module RootLoad {
  import opened Wrappers

  type Name = string

  /** What processing a delivered file comes to: its imports, or an exception. */
  datatype Source = Parsed(imports: seq<Name>, weakImports: seq<Name>) | Malformed

  datatype Delivery = Failed | Loaded(source: Source)

  datatype Report = Success | Error

  /** The bundled definitions and the way import paths are resolved. */
  datatype Config = Config(common: map<Name, Source>, resolve: (Name, Name) -> Option<Name>)

  /** The closure's variables `queued` and `callback` and the root's `files`; what is under way; and
      what an observer has seen. */
  datatype State = State(
    files: seq<Name>,
    queued: nat,
    callback: bool,
    pending: map<Name, bool>,
    processed: set<Name>,
    forgiven: set<Name>,
    reports: seq<Report>)

  const BUNDLE: Name := "google/protobuf/"

  predicate Occurs(s: string, p: string, k: int) {
    0 <= k && k + |p| <= |s| && s[k..k + |p|] == p
  }

  /** The last position of a pattern in a string, if any, at or below `i`. */
  function LastIndexOf(s: string, p: string, i: int): (r: int)
    requires i <= |s| - |p|
    ensures r == -1 || (r <= i && Occurs(s, p, r))
    ensures forall k | r < k <= i :: !Occurs(s, p, k)
    decreases i + 1
  {
    if i < 0 then -1 else if Occurs(s, p, i) then i else LastIndexOf(s, p, i - 1)
  }

  /** Strips the path of a file that is a bundled definition. */
  function Canonical(cfg: Config, name: Name): Name {
    var i := LastIndexOf(name, BUNDLE, |name| - |BUNDLE|);
    if i > -1 && name[i..] in cfg.common then name[i..] else name
  }

  /** `b` is a bundled definition that `name` ends in: it begins with the bundle's directory, which
      does not occur in it again. */
  ghost predicate Ends(cfg: Config, name: Name, b: Name) {
    && b in cfg.common
    && |b| <= |name| && name[|name| - |b|..] == b
    && Occurs(b, "google/protobuf/", 0) && forall k | k > 0 :: !Occurs(b, "google/protobuf/", k)
  }

  lemma OccursLater(name: Name, n: nat, p: string, k: int)
    requires n <= |name| && k >= 0
    ensures Occurs(name[n..], p, k) <==> Occurs(name, p, n + k)
  {
    if k + |p| <= |name[n..]| {
      assert name[n..][k..k + |p|] == name[n + k..n + k + |p|];
    }
  }

  /** A name that ends in a bundled definition is stripped down to it, whatever comes before; every
      other name is left alone. */
  lemma CanonicalEnds(cfg: Config, name: Name)
    ensures forall b | Ends(cfg, name, b) :: Canonical(cfg, name) == b
    ensures (forall b :: !Ends(cfg, name, b)) ==> Canonical(cfg, name) == name
  {
    var i := LastIndexOf(name, BUNDLE, |name| - |BUNDLE|);
    forall b | Ends(cfg, name, b)
      ensures Canonical(cfg, name) == b
    {
      LastIsEnd(cfg, name, b, i);
    }
    if i > -1 && name[i..] in cfg.common {
      StrippedEnds(cfg, name, i);
    }
  }

  lemma LastIsEnd(cfg: Config, name: Name, b: Name, i: int)
    requires Ends(cfg, name, b) && i == LastIndexOf(name, "google/protobuf/", |name| - |"google/protobuf/"|)
    ensures i == |name| - |b|
  {
    var n := |name| - |b|;
    OccursLater(name, n, "google/protobuf/", 0);
    if i > n {
      OccursLater(name, n, "google/protobuf/", i - n);
    }
  }

  lemma StrippedEnds(cfg: Config, name: Name, i: int)
    requires i == LastIndexOf(name, "google/protobuf/", |name| - |"google/protobuf/"|) && i >= 0 && name[i..] in cfg.common
    ensures Ends(cfg, name, name[i..])
  {
    var b := name[i..];
    OccursLater(name, i, "google/protobuf/", 0);
    forall k | k > 0
      ensures !Occurs(b, "google/protobuf/", k)
    {
      OccursLater(name, i, "google/protobuf/", k);
    }
  }

  // ---- steps ----

  function Finished(st: State, report: Report): State {
    if st.callback then st.(callback := false, reports := st.reports + [report]) else st
  }

  /** The state after a request for `f`. */
  function Pushed(st: State, f: Name, weak: bool): State {
    st.(files := st.files + [f], queued := st.queued + 1, pending := st.pending[f := weak])
  }

  function Fetch(cfg: Config, st: State, name: Name, weak: bool): State {
    var f := Canonical(cfg, name);
    if f in st.files then st
    else Pushed(st, f, weak)
  }

  /** Fetching a bundled definition under any path asks for just that definition, unless it is there
      already; any other name is asked for as it is. */
  lemma FetchAsks(cfg: Config, st: State, prefix: Name, b: Name, weak: bool)
    requires b in cfg.common && Occurs(b, "google/protobuf/", 0) && forall k | k > 0 :: !Occurs(b, "google/protobuf/", k)
    ensures var r := Fetch(cfg, st, prefix + b, weak);
      if b in st.files then r == st
      else r.files == st.files + [b] && r.pending == st.pending[b := weak] && r.queued == st.queued + 1
  {
    hide Canonical;
    CanonicalEnds(cfg, prefix + b);
    assert Ends(cfg, prefix + b, b);
  }

  lemma FetchPlain(cfg: Config, st: State, name: Name, weak: bool)
    requires forall b :: !Ends(cfg, name, b)
    ensures var r := Fetch(cfg, st, name, weak);
      if name in st.files then r == st
      else r.files == st.files + [name] && r.pending == st.pending[name := weak] && r.queued == st.queued + 1
  {
    hide Canonical, Ends;
    CanonicalEnds(cfg, name);
  }

  function FetchAll(cfg: Config, st: State, origin: Name, names: seq<Name>, weak: bool): State
    decreases |names|
  {
    if names == [] then st
    else
      var next := match cfg.resolve(origin, names[0])
                  case None => st
                  case Some(target) => Fetch(cfg, st, target, weak);
      FetchAll(cfg, next, origin, names[1..], weak)
  }

  function FinishIdle(st: State): State {
    if st.queued == 0 then Finished(st, Success) else st
  }

  function Process(cfg: Config, st: State, f: Name, source: Source): State {
    match source
    case Malformed => FinishIdle(Finished(st, Error))
    case Parsed(imports, weakImports) =>
      var fetched := FetchAll(cfg, FetchAll(cfg, st, f, imports, false), f, weakImports, true);
      FinishIdle(fetched.(processed := fetched.processed + {f}))
  }

  /** The completion of a pending file. A bundled definition is processed in any case; a fetched one
      only while nothing has been reported. */
  function Deliver(cfg: Config, st: State, f: Name, d: Delivery): State
    requires f in st.pending && st.queued > 0
  {
    var weak := st.pending[f];
    var st' := st.(queued := st.queued - 1, pending := st.pending - {f});
    if f in cfg.common then Process(cfg, st', f, cfg.common[f])
    else if !st'.callback then st'
    else match d
      case Failed => if weak then FinishIdle(st'.(forgiven := st'.forgiven + {f})) else Finished(st', Error)
      case Loaded(source) => Process(cfg, st', f, source)
  }

  /** The call itself, on a root that already holds `files`. */
  function Start(cfg: Config, files: seq<Name>, names: seq<Name>): State {
    FinishIdle(FetchAll(cfg, State(files, 0, true, map[], {}, {}, []), "", names, false))
  }

  datatype Event = Event(name: Name, delivery: Delivery)

  /** Each event delivers a file that is pending when it comes. */
  ghost predicate IsRun(cfg: Config, st: State, es: seq<Event>)
    decreases |es|
  {
    es == [] || (es[0].name in st.pending && st.queued > 0 && IsRun(cfg, Deliver(cfg, st, es[0].name, es[0].delivery), es[1..]))
  }

  ghost function Run(cfg: Config, st: State, es: seq<Event>): State
    requires IsRun(cfg, st, es)
    decreases |es|
  {
    if es == [] then st else Run(cfg, Deliver(cfg, st, es[0].name, es[0].delivery), es[1..])
  }

  // ---- bookkeeping over every run ----

  /** What holds at every moment: each file is requested once, `queued` counts what is pending, there
      is at most one report, and as long as there is none (and if it is a success) every requested
      file is pending, processed, forgiven or being worked on. */
  ghost predicate Books(st: State, files: seq<Name>, busy: set<Name>) {
    && files <= st.files
    && FirstTime(st.files, |files|)
    && st.queued == |st.pending|
    && Requested(st, |files|, busy)
    && Settled(st, busy)
    && |st.reports| == (if st.callback then 0 else 1)
    && (st.callback || st.reports == [Success] ==> Accounted(st, |files|, busy))
    && (st.reports == [Success] ==> st.queued == 0)
  }

  ghost predicate Settled(st: State, busy: set<Name>) {
    forall f | f in st.processed || f in st.forgiven || f in busy :: f !in st.pending
  }

  ghost predicate FirstTime(asked: seq<Name>, n: nat) {
    forall i, j | n <= i < |asked| && 0 <= j < i :: asked[i] != asked[j]
  }

  ghost predicate Requested(st: State, n: nat, busy: set<Name>)
    requires n <= |st.files|
  {
    forall f | f in st.pending || f in st.processed || f in st.forgiven || f in busy :: f in st.files[n..]
  }

  ghost predicate Accounted(st: State, n: nat, busy: set<Name>)
    requires n <= |st.files|
  {
    forall f | f in st.files[n..] :: f in st.pending || f in st.processed || f in st.forgiven || f in busy
  }

  /** What holds between steps: besides, nothing pending means that the callback was called. */
  ghost predicate Inv(st: State, files: seq<Name>) {
    Books(st, files, {}) && (st.queued == 0 ==> !st.callback)
  }

  lemma NotYet(st: State, f: Name, n: nat, busy: set<Name>)
    requires n <= |st.files| && Requested(st, n, busy) && f !in st.files
    ensures f !in st.pending && f !in st.processed && f !in st.forgiven && f !in busy
  {
    assert f !in st.files[n..];
  }

  lemma PushFiles(st: State, f: Name, weak: bool, n: nat, busy: set<Name>)
    requires n <= |st.files| && f !in st.files && FirstTime(st.files, n) && Requested(st, n, busy) && Settled(st, busy)
    ensures var r := Pushed(st, f, weak);
      && FirstTime(r.files, n) && Requested(r, n, busy) && Settled(r, busy)
      && |r.pending| == |st.pending| + 1
      && (Accounted(st, n, busy) ==> Accounted(r, n, busy))
  {
    var r := Pushed(st, f, weak);
    NotYet(st, f, n, busy);
    assert r.pending.Keys == st.pending.Keys + {f};
    assert r.files[n..] == st.files[n..] + [f];
  }

  lemma PushBooks(st: State, f: Name, weak: bool, files: seq<Name>, busy: set<Name>)
    requires Books(st, files, busy) && st.reports != [Success] && f !in st.files
    ensures Books(Pushed(st, f, weak), files, busy) && |Pushed(st, f, weak).pending| == |st.pending| + 1
  {
    hide Requested, Accounted, FirstTime, Settled;
    PushFiles(st, f, weak, |files|, busy);
  }

  lemma FetchBooks(cfg: Config, st: State, name: Name, weak: bool, files: seq<Name>, busy: set<Name>)
    requires Books(st, files, busy) && st.reports != [Success]
    ensures var r := Fetch(cfg, st, name, weak);
      && Books(r, files, busy)
      && r.reports == st.reports && r.callback == st.callback && r.processed == st.processed && r.forgiven == st.forgiven
      && |r.files| - |st.files| == |r.pending| - |st.pending|
  {
    hide Canonical, Books;
    if Canonical(cfg, name) !in st.files {
      PushBooks(st, Canonical(cfg, name), weak, files, busy);
    }
  }

  lemma {:induction false} FetchAllBooks(cfg: Config, st: State, origin: Name, names: seq<Name>, weak: bool, files: seq<Name>, busy: set<Name>)
    requires Books(st, files, busy) && st.reports != [Success]
    ensures var r := FetchAll(cfg, st, origin, names, weak);
      && Books(r, files, busy)
      && r.reports == st.reports && r.callback == st.callback && r.processed == st.processed && r.forgiven == st.forgiven
      && |r.files| - |st.files| == |r.pending| - |st.pending|
    decreases |names|
  {
    hide Books, Fetch;
    if names != [] {
      match cfg.resolve(origin, names[0]) {
        case None => FetchAllBooks(cfg, st, origin, names[1..], weak, files, busy);
        case Some(target) =>
          FetchBooks(cfg, st, target, weak, files, busy);
          FetchAllBooks(cfg, Fetch(cfg, st, target, weak), origin, names[1..], weak, files, busy);
      }
    }
  }

  lemma FinishBooks(st: State, report: Report, files: seq<Name>, busy: set<Name>)
    requires Books(st, files, busy) && (st.callback && report == Success ==> st.queued == 0)
    ensures Books(Finished(st, report), files, busy) && !Finished(st, report).callback
  {
    if st.callback {
      assert st.reports == [];
      assert (st.reports + [report])[0] == report;
    }
  }

  lemma SettleBooks(st: State, files: seq<Name>, f: Name)
    requires Books(st, files, {f}) && st.reports != [Success]
    ensures Books(st.(processed := st.processed + {f}), files, {})
    ensures Books(st.(forgiven := st.forgiven + {f}), files, {})
    ensures !st.callback ==> Books(st, files, {})
  {
  }

  lemma ErrorBooks(st: State, files: seq<Name>, f: Name)
    requires Books(st, files, {f}) && st.reports != [Success]
    ensures Books(Finished(st, Error), files, {})
  {
    var r := Finished(st, Error);
    assert r.reports != [Success] by {
      if st.callback {
        assert r.reports[0] == Error;
      }
    }
  }

  lemma ProcessInv(cfg: Config, st: State, f: Name, source: Source, files: seq<Name>)
    requires Books(st, files, {f}) && st.reports != [Success]
    ensures var r := Process(cfg, st, f, source);
      Inv(r, files) && |r.files| - |st.files| == |r.pending| - |st.pending|
  {
    hide Books, FetchAll;
    match source
    case Malformed =>
      ErrorBooks(st, files, f);
    case Parsed(imports, weakImports) =>
      var once := FetchAll(cfg, st, f, imports, false);
      FetchAllBooks(cfg, st, f, imports, false, files, {f});
      FetchAllBooks(cfg, once, f, weakImports, true, files, {f});
      var fetched := FetchAll(cfg, once, f, weakImports, true);
      SettleBooks(fetched, files, f);
      var done := fetched.(processed := fetched.processed + {f});
      if done.queued == 0 {
        FinishBooks(done, Success, files, {});
      }
  }

  lemma TakeBooks(st: State, f: Name, files: seq<Name>)
    requires Books(st, files, {}) && f in st.pending && st.queued > 0
    ensures var taken := st.(queued := st.queued - 1, pending := st.pending - {f});
      Books(taken, files, {f}) && taken.reports != [Success] && |taken.pending| == |st.pending| - 1
  {
    assert (st.pending - {f}).Keys == st.pending.Keys - {f};
  }

  /** Every delivery keeps the invariant, and each file is delivered at most once. */
  lemma DeliverInv(cfg: Config, st: State, f: Name, d: Delivery, files: seq<Name>)
    requires Inv(st, files) && f in st.pending && st.queued > 0
    ensures var r := Deliver(cfg, st, f, d);
      Inv(r, files) && |r.files| - |st.files| == |r.pending| - |st.pending| + 1
  {
    hide Books, Process;
    var taken := st.(queued := st.queued - 1, pending := st.pending - {f});
    TakeBooks(st, f, files);
    if f in cfg.common {
      ProcessInv(cfg, taken, f, cfg.common[f], files);
    } else if !taken.callback {
      SettleBooks(taken, files, f);
    } else {
      match d
      case Loaded(source) => ProcessInv(cfg, taken, f, source, files);
      case Failed =>
        if st.pending[f] {
          SettleBooks(taken, files, f);
          var forgiven := taken.(forgiven := taken.forgiven + {f});
          if forgiven.queued == 0 {
            FinishBooks(forgiven, Success, files, {});
          }
        } else {
          ErrorBooks(taken, files, f);
        }
    }
  }

  lemma StartInv(cfg: Config, files: seq<Name>, names: seq<Name>)
    ensures var r := Start(cfg, files, names);
      Inv(r, files) && |r.files| - |files| == |r.pending|
  {
    hide Books, FetchAll;
    var st := State(files, 0, true, map[], {}, {}, []);
    EmptyBooks(files);
    FetchAllBooks(cfg, st, "", names, false, files, {});
    var fetched := FetchAll(cfg, st, "", names, false);
    if fetched.queued == 0 {
      FinishBooks(fetched, Success, files, {});
    }
    BooksCount(fetched, files);
  }

  lemma EmptyBooks(files: seq<Name>)
    ensures Books(State(files, 0, true, map[], {}, {}, []), files, {})
  {
  }

  lemma BooksCount(st: State, files: seq<Name>)
    requires Books(st, files, {})
    ensures st.queued == |st.pending| && |st.reports| == (if st.callback then 0 else 1)
  {
  }

  lemma {:induction false} RunInv(cfg: Config, st: State, es: seq<Event>, files: seq<Name>)
    requires Inv(st, files) && IsRun(cfg, st, es)
    ensures Inv(Run(cfg, st, es), files)
    ensures |Run(cfg, st, es).files| - |st.files| == |Run(cfg, st, es).pending| - |st.pending| + |es|
    decreases |es|
  {
    hide Inv, Deliver;
    if es != [] {
      DeliverInv(cfg, st, es[0].name, es[0].delivery, files);
      RunInv(cfg, Deliver(cfg, st, es[0].name, es[0].delivery), es[1..], files);
    }
  }

  /** In every run of one load: a file name is requested at most once, and never one of an earlier
      load; the callback is called at most once, and exactly once by the time nothing is pending; a
      success is reported only with every requested file processed or a failed weak import. */
  lemma LoadContract(cfg: Config, files: seq<Name>, names: seq<Name>, es: seq<Event>)
    requires IsRun(cfg, Start(cfg, files, names), es)
    ensures var r := Run(cfg, Start(cfg, files, names), es);
      && files <= r.files
      && (forall i, j | |files| <= i < |r.files| && 0 <= j < i :: r.files[i] != r.files[j])
      && |r.reports| <= 1 && (r.pending == map[] ==> |r.reports| == 1)
      && (r.reports == [Success] ==> r.pending == map[] && forall f | f in r.files[|files|..] :: f in r.processed || f in r.forgiven)
  {
    StartInv(cfg, files, names);
    RunInv(cfg, Start(cfg, files, names), es, files);
    var r := Run(cfg, Start(cfg, files, names), es);
    if r.queued == 0 {
      assert |r.pending.Keys| == 0;
    }
  }

  /** A run is exactly as long as there are requests that are no longer pending, so it ends as soon
      as the names run out. */
  lemma RunLength(cfg: Config, files: seq<Name>, names: seq<Name>, es: seq<Event>)
    requires IsRun(cfg, Start(cfg, files, names), es)
    ensures var r := Run(cfg, Start(cfg, files, names), es);
      |es| == |r.files| - |files| - |r.pending|
  {
    StartInv(cfg, files, names);
    RunInv(cfg, Start(cfg, files, names), es, files);
  }

  // ---- what is reported ----

  lemma {:induction false} FetchAllKeeps(cfg: Config, st: State, origin: Name, names: seq<Name>, weak: bool)
    ensures var r := FetchAll(cfg, st, origin, names, weak);
      r.processed == st.processed && r.forgiven == st.forgiven && r.reports == st.reports && r.callback == st.callback
    decreases |names|
  {
    if names != [] {
      match cfg.resolve(origin, names[0]) {
        case None => FetchAllKeeps(cfg, st, origin, names[1..], weak);
        case Some(target) => FetchAllKeeps(cfg, Fetch(cfg, st, target, weak), origin, names[1..], weak);
      }
    }
  }

  /** The event deals with file `f` as a load should: it is parsed, or it is a weak import that
      could not be fetched. */
  ghost predicate Settles(cfg: Config, st: State, e: Event, f: Name) {
    && e.name == f && f in st.pending
    && if f in cfg.common then cfg.common[f].Parsed?
       else match e.delivery
         case Failed => st.pending[f]
         case Loaded(source) => source.Parsed?
  }

  ghost predicate SettledIn(cfg: Config, st: State, es: seq<Event>, f: Name)
    requires IsRun(cfg, st, es)
    decreases |es|
  {
    es != [] && (Settles(cfg, st, es[0], f) || SettledIn(cfg, Deliver(cfg, st, es[0].name, es[0].delivery), es[1..], f))
  }

  /** The event makes the load fail: nothing was reported so far, and the file cannot be parsed, or
      it cannot be fetched and is not a weak import. */
  ghost predicate Fails(cfg: Config, st: State, e: Event) {
    && st.callback && e.name in st.pending
    && if e.name in cfg.common then cfg.common[e.name].Malformed?
       else match e.delivery
         case Failed => !st.pending[e.name]
         case Loaded(source) => source.Malformed?
  }

  ghost predicate FailsIn(cfg: Config, st: State, es: seq<Event>)
    requires IsRun(cfg, st, es)
    decreases |es|
  {
    es != [] && (Fails(cfg, st, es[0]) || FailsIn(cfg, Deliver(cfg, st, es[0].name, es[0].delivery), es[1..]))
  }

  lemma DeliverReports(cfg: Config, st: State, e: Event, files: seq<Name>)
    requires Inv(st, files) && e.name in st.pending && st.queued > 0
    ensures var r := Deliver(cfg, st, e.name, e.delivery);
      && (r.reports == [Error] <==> st.reports == [Error] || Fails(cfg, st, e))
      && (forall f | f in r.processed || f in r.forgiven :: f in st.processed || f in st.forgiven || Settles(cfg, st, e, f))
  {
    hide Inv, FetchAll;
    BooksReports(st, files);
    assert (st.reports + [Success])[|st.reports|] == Success && (st.reports + [Error])[|st.reports|] == Error;
    var f := e.name;
    var taken := st.(queued := st.queued - 1, pending := st.pending - {f});
    match if f in cfg.common then Loaded(cfg.common[f]) else e.delivery {
      case Loaded(Parsed(imports, weakImports)) =>
        FetchAllKeeps(cfg, taken, f, imports, false);
        FetchAllKeeps(cfg, FetchAll(cfg, taken, f, imports, false), f, weakImports, true);
      case _ =>
    }
  }

  lemma BooksReports(st: State, files: seq<Name>)
    requires Inv(st, files)
    ensures st.callback <==> st.reports == []
  {
    hide Requested, Accounted, FirstTime, Settled;
  }

  lemma {:induction false} RunReports(cfg: Config, st: State, es: seq<Event>, files: seq<Name>)
    requires Inv(st, files) && IsRun(cfg, st, es)
    ensures Run(cfg, st, es).reports == [Error] <==> st.reports == [Error] || FailsIn(cfg, st, es)
    ensures var r := Run(cfg, st, es);
      forall f | f in r.processed || f in r.forgiven :: f in st.processed || f in st.forgiven || SettledIn(cfg, st, es, f)
    decreases |es|
  {
    hide Inv, Deliver, Fails, Settles;
    if es != [] {
      DeliverInv(cfg, st, es[0].name, es[0].delivery, files);
      DeliverReports(cfg, st, es[0], files);
      RunReports(cfg, Deliver(cfg, st, es[0].name, es[0].delivery), es[1..], files);
    }
  }

  /** An error is reported exactly in the runs in which, before any report, a file cannot be parsed
      or one that is not a weak import cannot be fetched; a success only in those in which every
      requested file is parsed or is a weak import that cannot be fetched. */
  lemma ReportIsRight(cfg: Config, files: seq<Name>, names: seq<Name>, es: seq<Event>)
    requires IsRun(cfg, Start(cfg, files, names), es)
    ensures var st := Start(cfg, files, names); var r := Run(cfg, st, es);
      && (r.reports == [Error] <==> FailsIn(cfg, st, es))
      && files <= r.files
      && (r.reports == [Success] ==> forall f | f in r.files[|files|..] :: SettledIn(cfg, st, es, f))
  {
    hide Run, IsRun, FailsIn, SettledIn;
    var st := Start(cfg, files, names);
    StartInv(cfg, files, names);
    StartReports(cfg, files, names);
    RunReports(cfg, st, es, files);
    LoadContract(cfg, files, names, es);
  }

  lemma StartReports(cfg: Config, files: seq<Name>, names: seq<Name>)
    ensures var st := Start(cfg, files, names); st.reports != [Error] && st.processed == {} && st.forgiven == {}
  {
    hide FetchAll;
    FetchAllKeeps(cfg, State(files, 0, true, map[], {}, {}, []), "", names, false);
    assert ([] + [Success])[0] == Success;
  }

  // ---- which files a load requests ----

  /** The files behind a list of imports. */
  ghost function Targets(cfg: Config, origin: Name, names: seq<Name>): set<Name> {
    if names == [] then {}
    else (match cfg.resolve(origin, names[0]) case None => {} case Some(t) => {Canonical(cfg, t)}) + Targets(cfg, origin, names[1..])
  }

  /** What processing a file finds, for a fixed content of the outside world. */
  ghost function SourceOf(cfg: Config, world: Name -> Delivery, f: Name): Source {
    if f in cfg.common then cfg.common[f]
    else match world(f)
      case Failed => Malformed
      case Loaded(source) => source
  }

  ghost function Imports(cfg: Config, world: Name -> Delivery, f: Name): set<Name> {
    match SourceOf(cfg, world, f)
    case Malformed => {}
    case Parsed(imports, weakImports) => Targets(cfg, f, imports) + Targets(cfg, f, weakImports)
  }

  ghost function SetOf(s: seq<Name>): set<Name> {
    set f | f in s
  }

  /** With the files of earlier loads, `x` holds the named files and the imports of its members. */
  ghost predicate Closed(cfg: Config, world: Name -> Delivery, files: seq<Name>, names: seq<Name>, x: set<Name>) {
    && Targets(cfg, "", names) <= x + SetOf(files)
    && forall f | f in x :: Imports(cfg, world, f) <= x + SetOf(files)
  }

  ghost predicate Follows(world: Name -> Delivery, es: seq<Event>) {
    forall i | 0 <= i < |es| :: es[i].delivery == world(es[i].name)
  }

  lemma {:induction false} FetchAllFiles(cfg: Config, st: State, origin: Name, names: seq<Name>, weak: bool)
    ensures SetOf(FetchAll(cfg, st, origin, names, weak).files) == SetOf(st.files) + Targets(cfg, origin, names)
    ensures st.files <= FetchAll(cfg, st, origin, names, weak).files
    decreases |names|
  {
    if names != [] {
      match cfg.resolve(origin, names[0]) {
        case None => FetchAllFiles(cfg, st, origin, names[1..], weak);
        case Some(target) =>
          var next := Fetch(cfg, st, target, weak);
          assert SetOf(next.files) == SetOf(st.files) + {Canonical(cfg, target)};
          FetchAllFiles(cfg, next, origin, names[1..], weak);
      }
    }
  }

  /** Between steps: nothing beyond what is needed was requested, and all that the named and the
      processed files need was. */
  ghost predicate Reaches(cfg: Config, world: Name -> Delivery, files: seq<Name>, names: seq<Name>, st: State) {
    && files <= st.files
    && Targets(cfg, "", names) <= SetOf(st.files)
    && (forall f | f in st.processed :: Imports(cfg, world, f) <= SetOf(st.files))
    && (forall f | f in st.forgiven :: Imports(cfg, world, f) == {})
    && (forall x: set<Name> | Closed(cfg, world, files, names, x) :: SetOf(st.files) <= x + SetOf(files))
  }

  lemma ProcessReaches(cfg: Config, world: Name -> Delivery, files: seq<Name>, names: seq<Name>, st: State, f: Name)
    requires Reaches(cfg, world, files, names, st) && f in st.files && f !in files
    ensures Reaches(cfg, world, files, names, Process(cfg, st, f, SourceOf(cfg, world, f)))
  {
    hide FetchAll, Targets;
    match SourceOf(cfg, world, f)
    case Malformed =>
    case Parsed(imports, weakImports) =>
      var once := FetchAll(cfg, st, f, imports, false);
      var r := FetchAll(cfg, once, f, weakImports, true);
      FetchAllKeeps(cfg, st, f, imports, false);
      FetchAllKeeps(cfg, once, f, weakImports, true);
      FetchAllFiles(cfg, st, f, imports, false);
      FetchAllFiles(cfg, once, f, weakImports, true);
      assert SetOf(r.files) == SetOf(st.files) + Imports(cfg, world, f);
      forall x: set<Name> | Closed(cfg, world, files, names, x)
        ensures SetOf(r.files) <= x + SetOf(files)
      {
        assert f in SetOf(st.files);
      }
  }

  lemma StartReaches(cfg: Config, world: Name -> Delivery, files: seq<Name>, names: seq<Name>)
    ensures Reaches(cfg, world, files, names, Start(cfg, files, names))
  {
    var st := State(files, 0, true, map[], {}, {}, []);
    FetchAllFiles(cfg, st, "", names, false);
    FetchAllKeeps(cfg, st, "", names, false);
  }

  lemma DeliverReaches(cfg: Config, world: Name -> Delivery, files: seq<Name>, names: seq<Name>, st: State, f: Name)
    requires Reaches(cfg, world, files, names, st) && Inv(st, files) && f in st.pending && st.queued > 0
    ensures Reaches(cfg, world, files, names, Deliver(cfg, st, f, world(f)))
  {
    hide Process, Targets;
    var taken := st.(queued := st.queued - 1, pending := st.pending - {f});
    PendingNew(st, files, f);
    assert Reaches(cfg, world, files, names, taken);
    if f in cfg.common || (taken.callback && world(f).Loaded?) {
      ProcessReaches(cfg, world, files, names, taken, f);
    }
  }

  lemma PendingNew(st: State, files: seq<Name>, f: Name)
    requires Inv(st, files) && f in st.pending
    ensures f in st.files && f !in files
  {
    var i :| |files| <= i < |st.files| && st.files[i] == f;
    forall j | 0 <= j < |files|
      ensures files[j] != f
    {
      assert st.files[j] == files[j];
    }
  }

  lemma {:induction false} RunReaches(cfg: Config, world: Name -> Delivery, files: seq<Name>, names: seq<Name>, st: State, es: seq<Event>)
    requires Reaches(cfg, world, files, names, st) && Inv(st, files) && IsRun(cfg, st, es) && Follows(world, es)
    ensures Reaches(cfg, world, files, names, Run(cfg, st, es))
    decreases |es|
  {
    hide Inv, Deliver, Reaches;
    if es != [] {
      DeliverInv(cfg, st, es[0].name, es[0].delivery, files);
      DeliverReaches(cfg, world, files, names, st, es[0].name);
      RunReaches(cfg, world, files, names, Deliver(cfg, st, es[0].name, es[0].delivery), es[1..]);
    }
  }

  /** A load that succeeds has requested exactly the least set of files that holds the named ones and
      the imports of its members, in whatever order the files were delivered. */
  lemma SuccessRequestsLeast(cfg: Config, world: Name -> Delivery, files: seq<Name>, names: seq<Name>, es: seq<Event>)
    requires IsRun(cfg, Start(cfg, files, names), es) && Follows(world, es)
    requires Run(cfg, Start(cfg, files, names), es).reports == [Success]
    ensures files <= Run(cfg, Start(cfg, files, names), es).files
    ensures var x := SetOf(Run(cfg, Start(cfg, files, names), es).files[|files|..]);
      && Closed(cfg, world, files, names, x)
      && forall y | Closed(cfg, world, files, names, y) :: x <= y
  {
    hide Start, Run, IsRun, Targets, Imports;
    var st := Start(cfg, files, names);
    StartInv(cfg, files, names);
    StartReaches(cfg, world, files, names);
    RunInv(cfg, st, es, files);
    RunReaches(cfg, world, files, names, st, es);
    var r := Run(cfg, st, es);
    SplitFiles(files, r.files);
    RequestedNew(r, files);
  }

  lemma SplitFiles(files: seq<Name>, more: seq<Name>)
    requires files <= more
    ensures SetOf(more) == SetOf(files) + SetOf(more[|files|..])
  {
    assert more == files + more[|files|..];
  }

  lemma RequestedNew(st: State, files: seq<Name>)
    requires Inv(st, files)
    ensures SetOf(st.files[|files|..]) !! SetOf(files)
  {
    forall f | f in st.files[|files|..]
      ensures f !in files
    {
      var i :| |files| <= i < |st.files| && st.files[i] == f;
      forall j | 0 <= j < |files|
        ensures files[j] != f
      {
        assert st.files[j] == files[j];
      }
    }
  }

  /** Hence two successful loads of the same names in the same world request the same files. */
  lemma OrderDoesNotMatter(cfg: Config, world: Name -> Delivery, files: seq<Name>, names: seq<Name>, es: seq<Event>, fs: seq<Event>)
    requires IsRun(cfg, Start(cfg, files, names), es) && Follows(world, es)
    requires IsRun(cfg, Start(cfg, files, names), fs) && Follows(world, fs)
    requires Run(cfg, Start(cfg, files, names), es).reports == [Success] == Run(cfg, Start(cfg, files, names), fs).reports
    ensures SetOf(Run(cfg, Start(cfg, files, names), es).files) == SetOf(Run(cfg, Start(cfg, files, names), fs).files)
  {
    hide Start, Run, IsRun, Closed, Follows;
    StartInv(cfg, files, names);
    RunInv(cfg, Start(cfg, files, names), es, files);
    RunInv(cfg, Start(cfg, files, names), fs, files);
    SuccessRequestsLeast(cfg, world, files, names, es);
    SuccessRequestsLeast(cfg, world, files, names, fs);
    SplitFiles(files, Run(cfg, Start(cfg, files, names), es).files);
    SplitFiles(files, Run(cfg, Start(cfg, files, names), fs).files);
  }

  // ---- whether a load succeeds may depend on the order ----

  const PLAIN: Config := Config(map[], (origin: Name, target: Name) => Some(target))

  /** Two files import a third one that cannot be fetched, one of them weakly. */
  function Torn(f: Name): Delivery {
    if f == "a" then Loaded(Parsed([], ["x"])) else if f == "b" then Loaded(Parsed(["x"], [])) else Failed
  }

  function Names3(f: Name, g: Name, h: Name): seq<Event> {
    [Event(f, Torn(f)), Event(g, Torn(g)), Event(h, Torn(h))]
  }

  /** The first import that asks for a file decides whether its failure is forgiven. */
  lemma OutcomeDependsOnOrder()
    ensures var st := Start(PLAIN, [], ["a", "b"]);
      && IsRun(PLAIN, st, Names3("a", "b", "x")) && Run(PLAIN, st, Names3("a", "b", "x")).reports == [Success]
      && IsRun(PLAIN, st, Names3("b", "a", "x")) && Run(PLAIN, st, Names3("b", "a", "x")).reports == [Error]
  {
    hide Deliver, Start;
    var st := Start(PLAIN, [], ["a", "b"]);
    PlainStart();
    DeliverOne(st, "a", true);
    var weakly := Deliver(PLAIN, st, "a", Torn("a"));
    DeliverOne(weakly, "b", false);
    var still := Deliver(PLAIN, weakly, "b", Torn("b"));
    DeliverMissing(still);
    LastThree(st, weakly, still, "a", "b", "x");
    DeliverOne(st, "b", false);
    var strongly := Deliver(PLAIN, st, "b", Torn("b"));
    DeliverOne(strongly, "a", true);
    var later := Deliver(PLAIN, strongly, "a", Torn("a"));
    DeliverMissing(later);
    LastThree(st, strongly, later, "b", "a", "x");
  }

  lemma PlainFetch(st: State, origin: Name, f: Name, weak: bool)
    requires |f| == 1
    ensures FetchAll(PLAIN, st, origin, [f], weak)
         == if f in st.files then st else Pushed(st, f, weak)
  {
    assert Canonical(PLAIN, f) == f;
    assert [f][1..] == [];
    assert FetchAll(PLAIN, st, origin, [f], weak) == FetchAll(PLAIN, Fetch(PLAIN, st, f, weak), origin, [], weak);
  }

  lemma DeliverOne(st: State, f: Name, weak: bool)
    requires f in st.pending && st.queued > 1 && st.callback && ((f == "a" && weak) || (f == "b" && !weak))
    ensures var r := Deliver(PLAIN, st, f, Torn(f));
      && r.callback && r.reports == st.reports
      && (if "x" in st.files then r.files == st.files && r.queued == st.queued - 1 && r.pending == st.pending - {f}
          else r.files == st.files + ["x"] && r.queued == st.queued && r.pending == (st.pending - {f})["x" := weak])
  {
    var taken := st.(queued := st.queued - 1, pending := st.pending - {f});
    PlainFetch(taken, f, "x", weak);
    assert FetchAll(PLAIN, taken, f, [], false) == taken;
    assert FetchAll(PLAIN, FetchAll(PLAIN, taken, f, ["x"], weak), f, [], true) == FetchAll(PLAIN, taken, f, ["x"], weak);
  }

  lemma DeliverMissing(st: State)
    requires "x" in st.pending && st.queued == 1 && st.callback && st.reports == []
    ensures Deliver(PLAIN, st, "x", Torn("x")).reports == [if st.pending["x"] then Success else Error]
  {
  }

  lemma PlainStart()
    ensures Start(PLAIN, [], ["a", "b"]) == State(["a", "b"], 2, true, map["a" := false, "b" := false], {}, {}, [])
  {
    var st := State([], 0, true, map[], {}, {}, []);
    var one := State(["a"], 1, true, map["a" := false], {}, {}, []);
    PlainFetch(st, "", "a", false);
    PlainFetch(one, "", "b", false);
    assert ["a", "b"][1..] == ["b"];
    assert FetchAll(PLAIN, st, "", ["a", "b"], false) == FetchAll(PLAIN, one, "", ["b"], false);
  }

  lemma LastThree(s0: State, s1: State, s2: State, f: Name, g: Name, h: Name)
    requires f in s0.pending && s0.queued > 0 && s1 == Deliver(PLAIN, s0, f, Torn(f))
    requires g in s1.pending && s1.queued > 0 && s2 == Deliver(PLAIN, s1, g, Torn(g))
    requires h in s2.pending && s2.queued > 0
    ensures IsRun(PLAIN, s0, Names3(f, g, h)) && Run(PLAIN, s0, Names3(f, g, h)) == Deliver(PLAIN, s2, h, Torn(h))
  {
    hide Deliver;
    var es := Names3(f, g, h);
    assert es[1..] == [Event(g, Torn(g)), Event(h, Torn(h))];
    assert es[1..][1..] == [Event(h, Torn(h))];
    assert es[1..][1..][1..] == [];
    var s3 := Deliver(PLAIN, s2, h, Torn(h));
    assert IsRun(PLAIN, s3, []) && Run(PLAIN, s3, []) == s3;
    assert IsRun(PLAIN, s2, es[1..][1..]) && Run(PLAIN, s2, es[1..][1..]) == s3;
    assert IsRun(PLAIN, s1, es[1..]) && Run(PLAIN, s1, es[1..]) == s3;
  }

  // ---- the closure and its callbacks ----

  class Loader {
    const cfg: Config
    var files: seq<Name>
    var queued: nat
    var callback: bool
    /** Requests whose completion is still to come, with their weakness. */
    ghost var pending: map<Name, bool>
    ghost var processed: set<Name>
    ghost var forgiven: set<Name>
    /** The calls of the callback, as its owner sees them. */
    ghost var reports: seq<Report>

    ghost function Abs(): State
      reads this
    {
      State(files, queued, callback, pending, processed, forgiven, reports)
    }

    constructor (cfg: Config, files: seq<Name>)
      ensures this.cfg == cfg && Abs() == State(files, 0, true, map[], {}, {}, [])
    {
      this.cfg := cfg;
      this.files := files;
      queued := 0;
      callback := true;
      pending := map[];
      processed := {};
      forgiven := {};
      reports := [];
    }

    method Finish(report: Report)
      modifies this
      ensures Abs() == Finished(old(Abs()), report)
    {
      if !callback {
        return;
      }
      callback := false;
      reports := reports + [report];
    }

    method FetchFile(name: Name, weak: bool)
      modifies this
      ensures Abs() == Fetch(cfg, old(Abs()), name, weak)
      ensures forall b | Ends(cfg, name, b) :: files == if b in old(files) then old(files) else old(files) + [b]
      ensures (forall b :: !Ends(cfg, name, b)) ==> files == if name in old(files) then old(files) else old(files) + [name]
    {
      hide Ends;
      CanonicalEnds(cfg, name);
      var filename := name;
      var idx := LastIndexOf(name, BUNDLE, |name| - |BUNDLE|);
      if idx > -1 {
        var altname := name[idx..];
        if altname in cfg.common {
          filename := altname;
        }
      }
      if filename in files {
        return;
      }
      files := files + [filename];
      queued := queued + 1;
      pending := pending[filename := weak];
    }

    /** Resolves and fetches the files of an import list. */
    method FetchImports(origin: Name, names: seq<Name>, weak: bool)
      modifies this
      ensures Abs() == FetchAll(cfg, old(Abs()), origin, names, weak)
    {
      hide Fetch;
      var i := 0;
      assert names[0..] == names;
      while i < |names|
        invariant i <= |names|
        invariant FetchAll(cfg, old(Abs()), origin, names, weak) == FetchAll(cfg, Abs(), origin, names[i..], weak)
      {
        assert names[i..][0] == names[i] && names[i..][1..] == names[i + 1..];
        var resolved := cfg.resolve(origin, names[i]);
        if resolved.Some? {
          FetchFile(resolved.value, weak);
        }
        i := i + 1;
      }
    }

    method ProcessFile(f: Name, source: Source)
      modifies this
      ensures Abs() == Process(cfg, old(Abs()), f, source)
    {
      hide FetchAll;
      match source {
        case Malformed => Finish(Error);
        case Parsed(imports, weakImports) =>
          FetchImports(f, imports, false);
          FetchImports(f, weakImports, true);
          processed := processed + {f};
      }
      if queued == 0 {
        Finish(Success);
      }
    }

    /** The timer or fetch callback of a pending file; `weak` is a variable of its closure. */
    method Complete(f: Name, weak: bool, d: Delivery)
      requires f in pending && pending[f] == weak && queued > 0
      modifies this
      ensures Abs() == Deliver(cfg, old(Abs()), f, d)
    {
      hide Process;
      queued := queued - 1;
      pending := pending - {f};
      if f in cfg.common {
        ProcessFile(f, cfg.common[f]);
        return;
      }
      if !callback {
        return;
      }
      match d
      case Loaded(source) => ProcessFile(f, source);
      case Failed =>
        if !weak {
          Finish(Error);
        } else {
          forgiven := forgiven + {f};
          if queued == 0 {
            Finish(Success);
          }
        }
    }

    /** `load`, on a root that holds the files of earlier loads. */
    method Load(names: seq<Name>)
      requires Abs() == State(files, 0, true, map[], {}, {}, [])
      modifies this
      ensures Abs() == Start(cfg, old(files), names)
    {
      hide FetchAll;
      FetchImports("", names, false);
      if queued == 0 {
        Finish(Success);
      }
    }
  }
}
