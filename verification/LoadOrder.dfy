/** When the outcome of `Root.load` depends on the order of completions, and when it does not. */
module LoadOrder {
  import opened RootLoad
  import opened Wrappers

  /** One load in a fixed outside world, on a root that holds `files`. */
  datatype Load = Load(cfg: Config, world: Name -> Delivery, files: seq<Name>, names: seq<Name>) {
    ghost function Start(): State {
      RootLoad.Start(cfg, files, names)
    }

    ghost predicate Runs(es: seq<Event>) {
      IsRun(cfg, Start(), es) && Follows(world, es)
    }

    ghost function After(es: seq<Event>): State
      requires Runs(es)
    {
      Run(cfg, Start(), es)
    }

    ghost predicate Parses(f: Name) {
      SourceOf(cfg, world, f).Parsed?
    }

    /** Delivered, but with an exception. */
    ghost predicate Broken(f: Name) {
      if f in cfg.common then cfg.common[f].Malformed? else world(f) == Loaded(Malformed)
    }

    ghost predicate Missing(f: Name) {
      f !in cfg.common && world(f) == Failed
    }

    ghost function Needs(f: Name): set<Name> {
      Imports(cfg, world, f)
    }

    /** The files that `f` does not only import weakly. */
    ghost function Strong(f: Name): set<Name> {
      match SourceOf(cfg, world, f)
      case Malformed => {}
      case Parsed(imports, _) => Targets(cfg, f, imports)
    }

    // ---- paths of imports ----

    /** What is asked for after the files of a path: the named files, or the imports of the last. */
    ghost function Wanted(p: seq<Name>): set<Name> {
      if p == [] then Targets(cfg, "", names) else Needs(p[|p| - 1])
    }

    ghost function Insisted(p: seq<Name>): set<Name> {
      if p == [] then Targets(cfg, "", names) else Strong(p[|p| - 1])
    }

    /** Each file is imported by the one before it, the first one is named, and all are parsed. */
    ghost predicate Route(p: seq<Name>) {
      && (forall i, j | 0 <= i < j < |p| :: p[i] != p[j])
      && forall i | 0 <= i < |p| :: p[i] !in files && Parses(p[i]) && p[i] in Wanted(p[..i])
    }

    ghost predicate Leads(p: seq<Name>, f: Name) {
      Route(p) && f !in files && f in Wanted(p)
    }

    /** The path ends in a strong import of `f`, or `f` is named, and it avoids the files that import
        `f` only weakly. */
    ghost predicate Sharp(p: seq<Name>, f: Name) {
      Leads(p, f) && f in Insisted(p) && forall g | g in p :: f in Needs(g) ==> f in Strong(g)
    }

    /** The least set of files with which the names and the imports of its members are at hand. */
    ghost predicate Least(x: set<Name>) {
      Closed(cfg, world, files, names, x) && forall y | Closed(cfg, world, files, names, y) :: x <= y
    }

    /** The file is named, or imported by one of those done. */
    ghost predicate Reached(g: Name, done: set<Name>) {
      g in Targets(cfg, "", names) || exists h :: h in done && Parses(h) && g in Needs(h)
    }

    /** What `g` insists on and cannot be fetched was asked for weakly by one of those done. */
    ghost predicate Covered(g: Name, done: set<Name>) {
      forall f | f in Strong(g) && f !in files && Missing(f) ::
        exists h :: h in done && Parses(h) && f in Needs(h) && f !in Strong(h)
    }

    ghost predicate AllParse(t: set<Name>) {
      forall g | g in t :: Parses(g)
    }

    /** All needed files can be dealt with: none is malformed, the named ones can be fetched, and no
        set of files that parse is stuck once all others are done. */
    ghost predicate Unblocked(x: set<Name>) {
      && Least(x)
      && (forall f | f in x :: !Broken(f))
      && (forall f | f in Targets(cfg, "", names) && f !in files :: !Missing(f))
      && forall t: set<Name> | t != {} && t <= x && AllParse(t) ::
           exists g :: g in t && Reached(g, x - t) && Covered(g, x - t)
    }

    ghost predicate Smooth() {
      exists x: set<Name> :: Unblocked(x)
    }

    /** No file that cannot be fetched is both insisted on and imported only weakly. */
    ghost predicate Consistent(kind: Name -> bool) {
      forall f | Missing(f) ::
        && (f in Targets(cfg, "", names) ==> !kind(f))
        && forall g | Parses(g) && f in Needs(g) :: kind(f) <==> f !in Strong(g)
    }

    /** Some path leads to a malformed file, or sharply to one that cannot be fetched. */
    ghost predicate Danger() {
      exists p: seq<Name>, f: Name :: (Leads(p, f) && Broken(f)) || (Sharp(p, f) && Missing(f))
    }
  }

  // ---- how every pending file came to be requested ----

  ghost predicate PathTo(l: Load, st: State, p: seq<Name>, f: Name)
    requires f in st.pending
  {
    && l.Leads(p, f) && (forall g | g in p :: g in st.processed)
    && if st.pending[f] then f !in l.Insisted(p) else l.Sharp(p, f)
  }

  /** A path to a weak request. */
  ghost predicate WeakPath(l: Load, st: State, p: seq<Name>, f: Name) {
    l.Leads(p, f) && (forall g | g in p :: g in st.processed) && f !in l.Insisted(p)
  }

  /** What holds between steps of any run. */
  ghost predicate Known(l: Load, st: State) {
    && Inv(st, l.files) && Reaches(l.cfg, l.world, l.files, l.names, st)
    && (forall f | f in st.pending :: exists p :: PathTo(l, st, p, f))
    && Handled(l, st)
  }

  /** Processed files parse, and forgiven ones could not be fetched and were requested weakly. */
  ghost predicate Handled(l: Load, st: State) {
    && (forall f | f in st.processed :: l.Parses(f))
    && (forall f | f in st.forgiven :: l.Missing(f) && exists p :: WeakPath(l, st, p, f))
  }

  lemma {:induction false} FetchAllPending(cfg: Config, st: State, origin: Name, names: seq<Name>, weak: bool)
    requires forall f | f in st.pending :: f in st.files
    ensures var r := FetchAll(cfg, st, origin, names, weak);
      && (forall f | f in r.pending :: f in r.files)
      && (forall f | f in st.pending :: f in r.pending && r.pending[f] == st.pending[f])
      && (forall f | f in r.pending && f !in st.pending :: f !in st.files && f in Targets(cfg, origin, names) && r.pending[f] == weak)
      && (forall f | f in r.files && f !in st.files :: f in r.pending)
    decreases |names|
  {
    if names != [] {
      match cfg.resolve(origin, names[0]) {
        case None => FetchAllPending(cfg, st, origin, names[1..], weak);
        case Some(target) => FetchAllPending(cfg, Fetch(cfg, st, target, weak), origin, names[1..], weak);
      }
    }
  }

  /** A path goes on with the file it leads to. */
  lemma Longer(l: Load, q: seq<Name>, g: Name)
    requires l.Leads(q, g) && g !in q && l.Parses(g)
    ensures l.Route(q + [g]) && l.Wanted(q + [g]) == l.Needs(g) && l.Insisted(q + [g]) == l.Strong(g)
  {
    hide Targets;
    var p := q + [g];
    forall i | 0 <= i < |p|
      ensures p[i] !in l.files && l.Parses(p[i]) && p[i] in l.Wanted(p[..i])
    {
      assert p[..i] == q[..i];
      assert i == |q| ==> q[..i] == q;
    }
  }

  /** A file requested while `g` is processed has a path through `g`. */
  lemma NewPath(l: Load, st: State, q: seq<Name>, g: Name, h: Name, r: State)
    requires l.Leads(q, g) && (forall x | x in q :: x in st.processed) && g !in st.processed && l.Parses(g)
    requires forall x | x in st.processed :: l.Needs(x) <= SetOf(st.files)
    requires h !in st.files && l.files <= st.files && h in l.Needs(g)
    requires r.processed == st.processed + {g} && h in r.pending && r.pending[h] == (h !in l.Strong(g))
    ensures PathTo(l, r, q + [g], h)
  {
    hide Targets;
    Longer(l, q, g);
    assert h !in l.files;
  }

  lemma OldPath(l: Load, st: State, r: State, p: seq<Name>, f: Name)
    requires f in st.pending && f in r.pending && r.pending[f] == st.pending[f] && st.processed <= r.processed
    requires PathTo(l, st, p, f)
    ensures PathTo(l, r, p, f)
  {
  }

  /** The weakness of the requests made while `g` is processed. */
  lemma ProcessPending(l: Load, st: State, g: Name)
    requires l.Parses(g) && forall f | f in st.pending :: f in st.files
    ensures var r := Process(l.cfg, st, g, SourceOf(l.cfg, l.world, g));
      && r.processed == st.processed + {g} && r.forgiven == st.forgiven
      && (forall f | f in st.pending :: f in r.pending && r.pending[f] == st.pending[f])
      && (forall f | f in r.pending && f !in st.pending ::
            f !in st.files && f in l.Needs(g) && r.pending[f] == (f !in l.Strong(g)))
      && (forall f | f in l.Needs(g) && f !in st.files :: f in r.pending)
  {
    hide FetchAll, Targets;
    match SourceOf(l.cfg, l.world, g)
    case Parsed(imports, weakImports) =>
      var once := FetchAll(l.cfg, st, g, imports, false);
      FetchAllPending(l.cfg, st, g, imports, false);
      FetchAllPending(l.cfg, once, g, weakImports, true);
      FetchAllKeeps(l.cfg, st, g, imports, false);
      FetchAllKeeps(l.cfg, once, g, weakImports, true);
      FetchAllFiles(l.cfg, st, g, imports, false);
      FetchAllFiles(l.cfg, once, g, weakImports, true);
      StrongAsked(l, st, once, g);
      AllAsked(l, st, FetchAll(l.cfg, once, g, weakImports, true), g);
  }

  lemma AllAsked(l: Load, st: State, r: State, g: Name)
    requires SetOf(r.files) == SetOf(st.files) + l.Needs(g)
    ensures forall f | f in l.Needs(g) :: f in r.files
  {
    forall f | f in l.Needs(g)
      ensures f in r.files
    {
      assert f in SetOf(r.files);
    }
  }

  lemma StrongAsked(l: Load, st: State, once: State, g: Name)
    requires SetOf(once.files) == SetOf(st.files) + l.Strong(g)
    ensures forall f | f in l.Strong(g) :: f in once.files
  {
    forall f | f in l.Strong(g)
      ensures f in once.files
    {
      assert f in SetOf(once.files);
    }
  }

  lemma ProcessPaths(l: Load, st: State, q: seq<Name>, g: Name)
    requires l.Leads(q, g) && (forall x | x in q :: x in st.processed) && g !in st.processed && l.Parses(g)
    requires Reaches(l.cfg, l.world, l.files, l.names, st) && forall f | f in st.pending :: f in st.files
    requires forall f | f in st.pending :: exists p :: PathTo(l, st, p, f)
    ensures var r := Process(l.cfg, st, g, SourceOf(l.cfg, l.world, g));
      forall f | f in r.pending :: exists p :: PathTo(l, r, p, f)
  {
    hide Process, PathTo;
    var r := Process(l.cfg, st, g, SourceOf(l.cfg, l.world, g));
    ProcessPending(l, st, g);
    forall f | f in r.pending
      ensures exists p :: PathTo(l, r, p, f)
    {
      if f in st.pending {
        var p :| PathTo(l, st, p, f);
        OldPath(l, st, r, p, f);
      } else {
        NewPath(l, st, q, g, f, r);
      }
    }
  }

  lemma PendingFiles(st: State, files: seq<Name>)
    requires Inv(st, files)
    ensures forall f | f in st.pending :: f in st.files && f !in files && f !in st.processed
    ensures files <= st.files
  {
    hide Accounted, FirstTime;
    forall f | f in st.pending
      ensures f in st.files && f !in files
    {
      PendingNew(st, files, f);
    }
  }

  lemma DeliverKnown(l: Load, st: State, f: Name)
    requires Known(l, st) && f in st.pending && st.queued > 0
    ensures Known(l, Deliver(l.cfg, st, f, l.world(f)))
  {
    hide Process, Inv, PathTo, Reaches, Handled;
    var r := Deliver(l.cfg, st, f, l.world(f));
    DeliverInv(l.cfg, st, f, l.world(f), l.files);
    DeliverReaches(l.cfg, l.world, l.files, l.names, st, f);
    PendingFiles(st, l.files);
    var taken := st.(queued := st.queued - 1, pending := st.pending - {f});
    var q :| PathTo(l, st, q, f);
    forall h | h in taken.pending
      ensures exists p :: PathTo(l, taken, p, h)
    {
      var p :| PathTo(l, st, p, h);
      OldPath(l, st, taken, p, h);
    }
    if (f in l.cfg.common || (taken.callback && l.world(f).Loaded?)) && l.Parses(f) {
      TakenReaches(l, st, taken);
      PathThrough(l, st, q, f);
      ProcessPaths(l, taken, q, f);
      ProcessPending(l, taken, f);
      HandledMore(l, st, r, {f});
    } else {
      NotProcessed(l, st, f);
      if r.forgiven == st.forgiven {
        HandledMore(l, st, r, {});
      } else {
        HandledForgiven(l, st, r, q, f);
      }
      forall h | h in r.pending
        ensures exists p :: PathTo(l, r, p, h)
      {
        var p :| PathTo(l, taken, p, h);
        OldPath(l, taken, r, p, h);
      }
    }
  }

  lemma HandledMore(l: Load, st: State, r: State, fs: set<Name>)
    requires Handled(l, st) && r.processed == st.processed + fs && r.forgiven == st.forgiven && forall f | f in fs :: l.Parses(f)
    ensures Handled(l, r)
  {
    forall f | f in r.forgiven
      ensures exists p :: WeakPath(l, r, p, f)
    {
      var p :| WeakPath(l, st, p, f);
      assert WeakPath(l, r, p, f);
    }
  }

  lemma HandledForgiven(l: Load, st: State, r: State, q: seq<Name>, f: Name)
    requires Handled(l, st) && r.processed == st.processed && r.forgiven == st.forgiven + {f}
    requires l.Missing(f) && f in st.pending && st.pending[f] && PathTo(l, st, q, f)
    ensures Handled(l, r)
  {
    assert WeakPath(l, r, q, f);
    forall g | g in st.forgiven
      ensures exists p :: WeakPath(l, r, p, g)
    {
      var p :| WeakPath(l, st, p, g);
      assert WeakPath(l, r, p, g);
    }
  }

  lemma PathThrough(l: Load, st: State, q: seq<Name>, f: Name)
    requires f in st.pending && PathTo(l, st, q, f)
    ensures l.Leads(q, f) && forall x | x in q :: x in st.processed
  {
  }

  lemma TakenReaches(l: Load, st: State, taken: State)
    requires Reaches(l.cfg, l.world, l.files, l.names, st)
    requires taken.files == st.files && taken.processed == st.processed && taken.forgiven == st.forgiven
    ensures Reaches(l.cfg, l.world, l.files, l.names, taken)
  {
    hide Targets, Imports, Closed;
  }

  /** A delivery that processes nothing only takes the file off. */
  lemma NotProcessed(l: Load, st: State, f: Name)
    requires f in st.pending && st.queued > 0
    requires !((f in l.cfg.common || (st.callback && l.world(f).Loaded?)) && l.Parses(f))
    ensures var r := Deliver(l.cfg, st, f, l.world(f));
      && r.pending == st.pending - {f} && r.processed == st.processed && r.files == st.files
      && (r.forgiven == st.forgiven || (r.forgiven == st.forgiven + {f} && l.Missing(f) && st.pending[f]))
  {
    hide FetchAll;
  }

  lemma StartKnown(l: Load)
    ensures Known(l, l.Start())
  {
    hide FetchAll, Inv, Reaches, Targets;
    var st := State(l.files, 0, true, map[], {}, {}, []);
    StartInv(l.cfg, l.files, l.names);
    StartReaches(l.cfg, l.world, l.files, l.names);
    FetchAllPending(l.cfg, st, "", l.names, false);
    FetchAllKeeps(l.cfg, st, "", l.names, false);
    forall f | f in l.Start().pending
      ensures exists p :: PathTo(l, l.Start(), p, f)
    {
      assert PathTo(l, l.Start(), [], f);
    }
  }

  lemma {:induction false} RunKnown(l: Load, st: State, es: seq<Event>)
    requires Known(l, st) && IsRun(l.cfg, st, es) && Follows(l.world, es)
    ensures Known(l, Run(l.cfg, st, es))
    decreases |es|
  {
    hide Known, Deliver;
    if es != [] {
      DeliverKnown(l, st, es[0].name);
      RunKnown(l, Deliver(l.cfg, st, es[0].name, es[0].delivery), es[1..]);
    }
  }

  // ---- when a run can fail ----

  /** A completion that makes the load fail shows the danger. */
  lemma FailShowsDanger(l: Load, st: State, e: Event)
    requires Known(l, st) && Fails(l.cfg, st, e) && e.delivery == l.world(e.name)
    ensures l.Danger()
  {
    var f := e.name;
    var p :| PathTo(l, st, p, f);
    assert l.Leads(p, f);
  }

  lemma {:induction false} RunShowsDanger(l: Load, st: State, es: seq<Event>)
    requires Known(l, st) && IsRun(l.cfg, st, es) && Follows(l.world, es) && FailsIn(l.cfg, st, es)
    ensures l.Danger()
    decreases |es|
  {
    hide Known, Deliver, Fails;
    if Fails(l.cfg, st, es[0]) {
      FailShowsDanger(l, st, es[0]);
    } else {
      DeliverKnown(l, st, es[0].name);
      RunShowsDanger(l, Deliver(l.cfg, st, es[0].name, es[0].delivery), es[1..]);
    }
  }

  /** A run goes on with a completion. */
  lemma {:induction false} RunMore(l: Load, st: State, es: seq<Event>, f: Name)
    requires IsRun(l.cfg, st, es) && Follows(l.world, es)
    requires f in Run(l.cfg, st, es).pending && Run(l.cfg, st, es).queued > 0
    ensures var more := es + [Event(f, l.world(f))];
      && IsRun(l.cfg, st, more) && Follows(l.world, more)
      && Run(l.cfg, st, more) == Deliver(l.cfg, Run(l.cfg, st, es), f, l.world(f))
    decreases |es|
  {
    hide Deliver;
    var e := Event(f, l.world(f));
    var more := es + [e];
    if es == [] {
      assert more == [e] && [e][1..] == [];
      assert IsRun(l.cfg, Deliver(l.cfg, st, f, l.world(f)), []);
    } else {
      assert more[1..] == es[1..] + [e];
      assert forall i | 0 <= i < |es| - 1 :: es[1..][i] == es[i + 1];
      RunMore(l, Deliver(l.cfg, st, es[0].name, es[0].delivery), es[1..], f);
    }
  }

  /** A run has processed just the files of a path. */
  ghost predicate Along(st: State, p: seq<Name>) {
    && st.forgiven == {} && (st.callback || st.reports == [Success])
    && (forall g | g in p :: g in st.processed) && (forall g | g in st.processed :: g in p)
  }

  /** What a path leads to is pending after a run along it, so that nothing was reported yet. */
  lemma AlongPending(l: Load, st: State, p: seq<Name>, f: Name)
    requires Known(l, st) && Along(st, p) && l.Leads(p, f) && f !in p
    ensures f in st.pending && st.queued > 0 && st.callback
  {
    hide Targets, PathTo, Handled;
    assert l.Wanted(p) <= SetOf(st.files);
    assert f in st.files;
    NewFile(l.files, st.files, f);
    assert |st.pending.Keys| > 0 by {
      assert f in st.pending.Keys;
    }
  }

  /** If the path leads there sharply, the file is not requested weakly. */
  lemma AlongSharp(l: Load, st: State, p: seq<Name>, f: Name)
    requires Known(l, st) && Along(st, p) && f in st.pending && st.pending[f]
    ensures !l.Sharp(p, f)
  {
    hide Targets, Inv, Reaches, Handled;
    var q :| PathTo(l, st, q, f);
    assert q != [];
    assert q[|q| - 1] in p;
  }

  lemma NewFile(files: seq<Name>, more: seq<Name>, f: Name)
    requires files <= more && f in more && f !in files
    ensures f in more[|files|..]
  {
    SplitFiles(files, more);
    assert f in SetOf(more);
  }

  /** Every path can be run along. */
  lemma {:induction false} RunAlong(l: Load, p: seq<Name>, f: Name) returns (es: seq<Event>)
    requires l.Leads(p, f) && f !in p
    ensures l.Runs(es) && Known(l, l.After(es)) && Along(l.After(es), p)
    ensures f in l.After(es).pending && l.After(es).queued > 0 && l.After(es).callback
    decreases |p|
  {
    hide Known, Deliver, RootLoad.Start, Targets, Along;
    StartKnown(l);
    if p == [] {
      es := [];
      StartAlong(l);
      AlongPending(l, l.Start(), p, f);
    } else {
      var q, g := p[..|p| - 1], p[|p| - 1];
      assert p == q + [g];
      RoutePrefix(l, q, g);
      es := RunAlong(l, q, g);
      var st := l.After(es);
      RunMore(l, l.Start(), es, g);
      es := es + [Event(g, l.world(g))];
      DeliverKnown(l, st, g);
      StepAlong(l, st, q, g);
      AlongPending(l, l.After(es), p, f);
    }
  }

  lemma RoutePrefix(l: Load, q: seq<Name>, g: Name)
    requires l.Route(q + [g])
    ensures l.Leads(q, g) && g !in q && l.Parses(g)
  {
    var p := q + [g];
    assert p[|q|] == g && p[..|q|] == q;
    forall i | 0 <= i < |q|
      ensures q[i] !in l.files && l.Parses(q[i]) && q[i] in l.Wanted(q[..i]) && q[i] != g
    {
      assert p[i] == q[i] && p[..i] == q[..i];
    }
    assert forall i, j | 0 <= i < j < |q| :: q[i] != q[j] by {
      assert forall i | 0 <= i < |q| :: p[i] == q[i];
    }
  }

  lemma StartAlong(l: Load)
    ensures Along(l.Start(), [])
  {
    hide FetchAll, Targets;
    FetchAllKeeps(l.cfg, State(l.files, 0, true, map[], {}, {}, []), "", l.names, false);
    assert [] + [Success] == [Success];
  }

  /** Processing a file that parses, while nothing is reported. */
  lemma ProcessKeeps(l: Load, st: State, g: Name)
    requires l.Parses(g) && st.callback && st.reports == []
    ensures var r := Process(l.cfg, st, g, SourceOf(l.cfg, l.world, g));
      r.forgiven == st.forgiven && r.processed == st.processed + {g} && (r.callback || r.reports == [Success])
  {
    hide FetchAll;
    match SourceOf(l.cfg, l.world, g)
    case Parsed(imports, weakImports) =>
      FetchAllKeeps(l.cfg, st, g, imports, false);
      FetchAllKeeps(l.cfg, FetchAll(l.cfg, st, g, imports, false), g, weakImports, true);
      assert [] + [Success] == [Success];
  }

  lemma StepAlong(l: Load, st: State, q: seq<Name>, g: Name)
    requires Known(l, st) && Along(st, q) && st.callback && g in st.pending && st.queued > 0 && l.Parses(g)
    ensures Along(Deliver(l.cfg, st, g, l.world(g)), q + [g])
  {
    hide Process, Reaches, PathTo, Inv, Handled;
    BooksReports(st, l.files);
    ProcessKeeps(l, st.(queued := st.queued - 1, pending := st.pending - {g}), g);
  }

  lemma DangerFails(l: Load)
    requires l.Danger()
    ensures exists es :: l.Runs(es) && l.After(es).reports == [Error]
  {
    hide Known, RootLoad.Start, Targets, Run, IsRun, Follows, Along;
    var p, f :| (l.Leads(p, f) && l.Broken(f)) || (l.Sharp(p, f) && l.Missing(f));
    NotParsed(l, p, f);
    var es := RunAlong(l, p, f);
    var st := l.After(es);
    if st.pending[f] {
      AlongSharp(l, st, p, f);
    }
    RunMore(l, l.Start(), es, f);
    DeliverFails(l, st, f);
    assert l.Runs(es + [Event(f, l.world(f))]);
  }

  lemma NotParsed(l: Load, p: seq<Name>, f: Name)
    requires l.Route(p) && (l.Broken(f) || l.Missing(f))
    ensures f !in p
  {
  }

  lemma DeliverFails(l: Load, st: State, f: Name)
    requires Known(l, st) && st.callback && f in st.pending && st.queued > 0
    requires l.Broken(f) || (l.Missing(f) && !st.pending[f])
    ensures Deliver(l.cfg, st, f, l.world(f)).reports == [Error]
  {
    hide Reaches, PathTo, Inv, Handled;
    BooksReports(st, l.files);
  }

  /** Some run of a load ends in an error if and only if a path of imports leads to a malformed file,
      or sharply to one that cannot be fetched. */
  lemma ErrorPossible(l: Load)
    ensures (exists es :: l.Runs(es) && l.After(es).reports == [Error]) <==> l.Danger()
  {
    hide Known, Run, IsRun, RootLoad.Start, FailsIn, Follows;
    if es :| l.Runs(es) && l.After(es).reports == [Error] {
      ReportIsRight(l.cfg, l.files, l.names, es);
      StartKnown(l);
      RunShowsDanger(l, l.Start(), es);
    }
    if l.Danger() {
      DangerFails(l);
    }
  }

  // ---- when every order has the same outcome ----

  /** The files that a path goes over, and those it leads to, are needed. */
  lemma {:induction false} RouteInside(l: Load, x: set<Name>, p: seq<Name>, f: Name)
    requires Closed(l.cfg, l.world, l.files, l.names, x) && l.Leads(p, f)
    ensures f in x && forall g | g in p :: g in x
    decreases |p|
  {
    hide Targets, Imports;
    if p != [] {
      var q, g := p[..|p| - 1], p[|p| - 1];
      assert p == q + [g];
      RoutePrefix(l, q, g);
      RouteInside(l, x, q, g);
    }
  }

  /** After a success, every needed file was parsed, or was requested weakly and is missing. */
  lemma SuccessHandled(l: Load, es: seq<Event>) returns (x: set<Name>)
    requires l.Runs(es) && l.After(es).reports == [Success]
    ensures l.Least(x) && Known(l, l.After(es))
    ensures forall f | f in x :: f in l.After(es).processed || f in l.After(es).forgiven
  {
    hide Known, Run, IsRun, RootLoad.Start, Follows, Closed;
    var st := l.After(es);
    SuccessRequestsLeast(l.cfg, l.world, l.files, l.names, es);
    LoadContract(l.cfg, l.files, l.names, es);
    StartKnown(l);
    RunKnown(l, l.Start(), es);
    x := SetOf(st.files[|l.files|..]);
  }

  /** Where files that cannot be fetched are requested always weakly or never weakly, no run succeeds
      if another one fails. */
  lemma ConsistentOutcome(l: Load, kind: Name -> bool, es: seq<Event>)
    requires l.Consistent(kind) && l.Runs(es) && l.After(es).reports == [Success]
    ensures !l.Danger()
  {
    hide Run, IsRun, RootLoad.Start, Follows, Inv, Reaches, PathTo, Targets, Closed;
    var x := SuccessHandled(l, es);
    var st := l.After(es);
    forall p: seq<Name>, f: Name
      ensures !(l.Leads(p, f) && l.Broken(f)) && !(l.Sharp(p, f) && l.Missing(f))
    {
      if l.Leads(p, f) && (l.Broken(f) || l.Missing(f)) {
        RouteInside(l, x, p, f);
        if l.Missing(f) {
          var q :| WeakPath(l, st, q, f);
          WeaklyAsked(l, kind, st, q, f);
          if l.Sharp(p, f) {
            SharplyAsked(l, kind, p, f);
          }
        }
      }
    }
  }

  lemma WeaklyAsked(l: Load, kind: Name -> bool, st: State, q: seq<Name>, f: Name)
    requires l.Consistent(kind) && l.Missing(f) && WeakPath(l, st, q, f)
    ensures kind(f)
  {
    hide Targets, Imports;
    assert l.Parses(q[|q| - 1]);
  }

  lemma SharplyAsked(l: Load, kind: Name -> bool, p: seq<Name>, f: Name)
    requires l.Consistent(kind) && l.Missing(f) && l.Sharp(p, f)
    ensures !kind(f)
  {
    hide Targets, Imports;
    if p != [] {
      assert l.Parses(p[|p| - 1]);
    }
  }

  /** Then any two runs with nothing left pending report the same. */
  lemma OneOutcome(l: Load, kind: Name -> bool, es: seq<Event>, fs: seq<Event>)
    requires l.Consistent(kind) && l.Runs(es) && l.Runs(fs)
    requires l.After(es).pending == map[] && l.After(fs).pending == map[]
    ensures l.After(es).reports == l.After(fs).reports
  {
    hide Run, IsRun, RootLoad.Start, Follows;
    LoadContract(l.cfg, l.files, l.names, es);
    LoadContract(l.cfg, l.files, l.names, fs);
    OneReport(l.After(es).reports);
    OneReport(l.After(fs).reports);
    ErrorPossible(l);
    if l.After(es).reports == [Success] {
      ConsistentOutcome(l, kind, es);
    } else if l.After(fs).reports == [Success] {
      ConsistentOutcome(l, kind, fs);
    }
  }

  lemma OneReport(reports: seq<Report>)
    requires |reports| == 1
    ensures reports == [Success] || reports == [Error]
  {
    if reports[0] == Success {
      assert reports == [Success];
    } else {
      assert reports == [Error];
    }
  }

  // ---- when a run can succeed ----

  /** Completions of other files keep a request and its weakness. */
  lemma DeliverOther(l: Load, st: State, g: Name, f: Name)
    requires Known(l, st) && g in st.pending && st.queued > 0 && f in st.pending && f != g
    ensures var r := Deliver(l.cfg, st, g, l.world(g)); f in r.pending && r.pending[f] == st.pending[f]
  {
    hide Process, PathTo, Reaches, Handled, Inv;
    PendingFiles(st, l.files);
    var taken := st.(queued := st.queued - 1, pending := st.pending - {g});
    if (g in l.cfg.common || (taken.callback && l.world(g).Loaded?)) && l.Parses(g) {
      ProcessPending(l, taken, g);
    } else {
      NotProcessed(l, st, g);
    }
  }

  lemma PendingNoSuccess(l: Load, st: State, f: Name)
    requires Inv(st, l.files) && f in st.pending
    ensures st.queued > 0 && st.reports != [Success] && (st.callback || st.reports == [Error])
  {
    hide Requested, Accounted, FirstTime, Settled;
    assert |st.pending.Keys| > 0 by {
      assert f in st.pending.Keys;
    }
    if !st.callback {
      OneReport(st.reports);
    }
  }

  /** A load that insists on a file that cannot be fetched does not succeed. */
  lemma {:induction false} InsistedFails(l: Load, st: State, es: seq<Event>, f: Name)
    requires Known(l, st) && IsRun(l.cfg, st, es) && Follows(l.world, es)
    requires f in st.pending && !st.pending[f] && l.Missing(f)
    ensures Run(l.cfg, st, es).reports != [Success]
    decreases |es|
  {
    hide Deliver, Inv, Reaches, PathTo, Handled;
    PendingNoSuccess(l, st, f);
    if es != [] {
      var e := es[0];
      DeliverKnown(l, st, e.name);
      if e.name == f {
        DeliverReports(l.cfg, st, e, l.files);
        RunReports(l.cfg, Deliver(l.cfg, st, e.name, e.delivery), es[1..], l.files);
      } else {
        DeliverOther(l, st, e.name, f);
        InsistedFails(l, Deliver(l.cfg, st, e.name, e.delivery), es[1..], f);
      }
    }
  }

  /** The first file of `t` that a successful run processes could be reached and was covered. */
  lemma {:induction false} FirstReady(l: Load, st: State, es: seq<Event>, x: set<Name>, t: set<Name>) returns (g: Name)
    requires Known(l, st) && IsRun(l.cfg, st, es) && Follows(l.world, es) && Run(l.cfg, st, es).reports == [Success]
    requires l.AllParse(t) && t <= x && st.processed <= x && (forall f | f in st.processed :: f !in t)
    requires Closed(l.cfg, l.world, l.files, l.names, x)
    requires exists f :: f in t && f in Run(l.cfg, st, es).processed
    ensures g in t && l.Reached(g, x - t) && l.Covered(g, x - t)
    decreases |es|
  {
    hide Deliver, Inv, Reaches, PathTo, Handled, Closed;
    var e := es[0];
    var r := Deliver(l.cfg, st, e.name, e.delivery);
    DeliverKnown(l, st, e.name);
    if e.name in t && e.name in r.processed {
      g := e.name;
      ProcessedParses(l, r, g);
      ReadyAt(l, st, g, es, x, t);
    } else {
      DeliverGrows(l, st, e.name, x);
      g := FirstReady(l, r, es[1..], x, t);
    }
  }

  lemma ProcessedParses(l: Load, st: State, g: Name)
    requires Known(l, st) && g in st.processed
    ensures l.Parses(g)
  {
    hide Inv, Reaches, PathTo, WeakPath;
  }

  lemma DeliverGrows(l: Load, st: State, g: Name, x: set<Name>)
    requires Known(l, st) && g in st.pending && st.queued > 0 && Closed(l.cfg, l.world, l.files, l.names, x)
    ensures g in x
    ensures var r := Deliver(l.cfg, st, g, l.world(g));
      st.processed <= r.processed && forall f | f in r.processed :: f in st.processed || f == g
  {
    hide Process, PathTo, Reaches, Handled, Inv, Closed;
    PendingFiles(st, l.files);
    var q :| PathTo(l, st, q, g);
    PathThrough(l, st, q, g);
    RouteInside(l, x, q, g);
    var taken := st.(queued := st.queued - 1, pending := st.pending - {g});
    if (g in l.cfg.common || (taken.callback && l.world(g).Loaded?)) && l.Parses(g) {
      ProcessPending(l, taken, g);
    } else {
      NotProcessed(l, st, g);
    }
  }

  lemma ReadyAt(l: Load, st: State, g: Name, es: seq<Event>, x: set<Name>, t: set<Name>)
    requires Known(l, st) && IsRun(l.cfg, st, es) && Follows(l.world, es) && Run(l.cfg, st, es).reports == [Success]
    requires es != [] && es[0].name == g && g in t && l.Parses(g)
    requires t <= x && st.processed <= x && (forall f | f in st.processed :: f !in t)
    ensures l.Reached(g, x - t) && l.Covered(g, x - t)
  {
    hide Known, Deliver, Run, Follows, PathTo, WeakPath, Targets;
    ReachedAt(l, st, g, x, t);
    forall f | f in l.Strong(g) && f !in l.files && l.Missing(f)
      ensures exists h :: h in x - t && l.Parses(h) && f in l.Needs(h) && f !in l.Strong(h)
    {
      CoveredAt(l, st, g, es, f, x, t);
    }
  }

  lemma ReachedAt(l: Load, st: State, g: Name, x: set<Name>, t: set<Name>)
    requires Known(l, st) && g in st.pending && st.processed <= x && (forall f | f in st.processed :: f !in t)
    ensures l.Reached(g, x - t)
  {
    hide Inv, Reaches, Handled, Targets, Imports;
    var q :| PathTo(l, st, q, g);
    if q != [] {
      assert q[|q| - 1] in x - t;
    }
  }

  lemma CoveredAt(l: Load, st: State, g: Name, es: seq<Event>, f: Name, x: set<Name>, t: set<Name>)
    requires Known(l, st) && IsRun(l.cfg, st, es) && Follows(l.world, es) && Run(l.cfg, st, es).reports == [Success]
    requires es != [] && es[0].name == g && l.Parses(g)
    requires st.processed <= x && (forall f | f in st.processed :: f !in t)
    requires f in l.Strong(g) && f !in l.files && l.Missing(f)
    ensures exists h :: h in x - t && l.Parses(h) && f in l.Needs(h) && f !in l.Strong(h)
  {
    hide Deliver, Inv, Reaches, PathTo, WeakPath, Targets;
    PendingNoSuccess(l, st, g);
    RunReports(l.cfg, st, es, l.files);
    if f in st.files {
      AskedBefore(l, st, f);
      if f in st.pending && !st.pending[f] {
        InsistedFails(l, st, es, f);
      }
      WeakPathSays(l, st, f, x, t);
    } else {
      DeliverKnown(l, st, g);
      AskedNow(l, st, g, f);
      InsistedFails(l, Deliver(l.cfg, st, g, l.world(g)), es[1..], f);
    }
  }

  lemma AskedBefore(l: Load, st: State, f: Name)
    requires Known(l, st) && st.callback && f in st.files && f !in l.files && l.Missing(f)
    ensures f in st.pending || f in st.forgiven
  {
    hide Reaches, PathTo, WeakPath;
    PendingFiles(st, l.files);
    NewFile(l.files, st.files, f);
  }

  lemma AskedNow(l: Load, st: State, g: Name, f: Name)
    requires Known(l, st) && st.callback && g in st.pending && st.queued > 0 && l.Parses(g)
    requires f in l.Strong(g) && f !in st.files
    ensures var r := Deliver(l.cfg, st, g, l.world(g)); f in r.pending && !r.pending[f]
  {
    hide Process, Inv, Reaches, PathTo, Handled;
    PendingFiles(st, l.files);
    var taken := st.(queued := st.queued - 1, pending := st.pending - {g});
    ProcessPending(l, taken, g);
    StrongNeeded(l, g);
  }

  lemma StrongNeeded(l: Load, g: Name)
    ensures l.Strong(g) <= l.Needs(g)
  {
    hide Targets;
  }

  lemma WeakPathSays(l: Load, st: State, f: Name, x: set<Name>, t: set<Name>)
    requires Known(l, st) && st.processed <= x && (forall f | f in st.processed :: f !in t)
    requires f in st.forgiven || (f in st.pending && st.pending[f])
    ensures exists h :: h in x - t && l.Parses(h) && f in l.Needs(h) && f !in l.Strong(h)
  {
    hide Inv, Reaches, Targets, Imports;
    var q: seq<Name>;
    if f in st.forgiven {
      q :| WeakPath(l, st, q, f);
    } else {
      q :| PathTo(l, st, q, f);
    }
    var h := q[|q| - 1];
    assert h in x - t && l.Parses(h);
  }

  lemma NamedPending(l: Load, f: Name)
    requires f in Targets(l.cfg, "", l.names) && f !in l.files
    ensures f in l.Start().pending && !l.Start().pending[f]
  {
    hide Targets, FetchAll;
    var st := State(l.files, 0, true, map[], {}, {}, []);
    FetchAllPending(l.cfg, st, "", l.names, false);
    FetchAllFiles(l.cfg, st, "", l.names, false);
    assert f in SetOf(FetchAll(l.cfg, st, "", l.names, false).files);
  }

  lemma SuccessShowsSmooth(l: Load, es: seq<Event>)
    requires l.Runs(es) && l.After(es).reports == [Success]
    ensures l.Smooth()
  {
    hide RootLoad.Start, Run, IsRun, Follows, Inv, Reaches, PathTo, WeakPath, Targets, Closed;
    var st := l.After(es);
    var x := SuccessHandled(l, es);
    StartKnown(l);
    forall f | f in Targets(l.cfg, "", l.names) && f !in l.files
      ensures !l.Missing(f)
    {
      NamedPending(l, f);
      if l.Missing(f) {
        InsistedFails(l, l.Start(), es, f);
      }
    }
    forall t: set<Name> | t != {} && t <= x && l.AllParse(t)
      ensures exists g :: g in t && l.Reached(g, x - t) && l.Covered(g, x - t)
    {
      var f :| f in t;
      assert f in st.processed;
      StartAlong(l);
      var g := FirstReady(l, l.Start(), es, x, t);
    }
    assert l.Unblocked(x);
  }

  lemma LeastNew(l: Load, x: set<Name>, f: Name)
    requires l.Least(x) && f in x
    ensures f !in l.files
  {
    hide Targets, Imports;
    var y := x - SetOf(l.files);
    assert x + SetOf(l.files) == y + SetOf(l.files);
    assert Closed(l.cfg, l.world, l.files, l.names, y);
    assert f in y;
  }

  /** Nothing insisted on is missing so far, and no error was reported. */
  ghost predicate Calm(l: Load, st: State) {
    && Known(l, st) && (st.callback || st.reports == [Success])
    && forall f | f in st.pending && l.Missing(f) :: st.pending[f]
  }

  /** The files that parse and are still to be processed. */
  ghost function Todo(l: Load, st: State, x: set<Name>): set<Name> {
    set g | g in x && l.Parses(g) && g !in st.processed
  }

  /** Some file that can be reached and is covered is pending, as long as any is left. */
  lemma NextFile(l: Load, st: State, x: set<Name>) returns (g: Name)
    requires Calm(l, st) && l.Unblocked(x) && Todo(l, st, x) != {}
    ensures g in st.pending && l.Parses(g) && l.Covered(g, x - Todo(l, st, x))
  {
    hide Targets, Imports, PathTo, WeakPath, Closed;
    var t := Todo(l, st, x);
    g :| g in t && l.Reached(g, x - t) && l.Covered(g, x - t);
    LeastNew(l, x, g);
    NextAsked(l, st, x, g);
    NewFile(l.files, st.files, g);
  }

  lemma NextAsked(l: Load, st: State, x: set<Name>, g: Name)
    requires Reaches(l.cfg, l.world, l.files, l.names, st) && l.Reached(g, x - Todo(l, st, x))
    ensures g in st.files && l.files <= st.files
  {
    hide Targets, Imports;
    assert g in SetOf(st.files);
  }

  lemma CoveredFresh(l: Load, st: State, x: set<Name>, g: Name, f: Name)
    requires Reaches(l.cfg, l.world, l.files, l.names, st) && l.Covered(g, x - Todo(l, st, x))
    requires f in l.Strong(g) && l.Missing(f)
    ensures f in st.files
  {
    hide Targets, Imports;
    if f in l.files {
    } else {
      var h :| h in x - Todo(l, st, x) && l.Parses(h) && f in l.Needs(h) && f !in l.Strong(h);
      assert f in SetOf(st.files);
    }
  }

  lemma CalmNext(l: Load, st: State, x: set<Name>, g: Name)
    requires Calm(l, st) && g in st.pending && l.Parses(g) && l.Covered(g, x - Todo(l, st, x))
    ensures st.queued > 0
    ensures var r := Deliver(l.cfg, st, g, l.world(g));
      Calm(l, r) && r.processed == st.processed + {g} && r.forgiven == st.forgiven
  {
    hide Process, Inv, Reaches, PathTo, Handled;
    PendingNoSuccess(l, st, g);
    BooksReports(st, l.files);
    DeliverKnown(l, st, g);
    PendingFiles(st, l.files);
    var taken := st.(queued := st.queued - 1, pending := st.pending - {g});
    ProcessPending(l, taken, g);
    ProcessKeeps(l, taken, g);
    var r := Deliver(l.cfg, st, g, l.world(g));
    forall f | f in r.pending && l.Missing(f)
      ensures r.pending[f]
    {
      if f !in taken.pending && f in l.Strong(g) {
        CoveredFresh(l, st, x, g, f);
      }
    }
  }

  lemma CalmForgive(l: Load, st: State, f: Name)
    requires Calm(l, st) && f in st.pending && l.Missing(f)
    ensures st.queued > 0
    ensures var r := Deliver(l.cfg, st, f, l.world(f));
      Calm(l, r) && r.processed == st.processed && r.forgiven == st.forgiven + {f}
  {
    hide Inv, Reaches, PathTo, Handled;
    PendingNoSuccess(l, st, f);
    BooksReports(st, l.files);
    DeliverKnown(l, st, f);
    assert [] + [Success] == [Success];
  }

  lemma PendingInside(l: Load, st: State, x: set<Name>, f: Name)
    requires Calm(l, st) && l.Unblocked(x) && f in st.pending
    ensures f in x && f !in st.processed && f !in st.forgiven
    ensures Todo(l, st, x) == {} ==> l.Missing(f)
  {
    hide Inv, Reaches, PathTo, Handled, Closed, Targets;
    PendingFiles(st, l.files);
    NotForgiven(st, l.files, f);
    var q :| PathTo(l, st, q, f);
    PathThrough(l, st, q, f);
    RouteInside(l, x, q, f);
    if l.Parses(f) {
      assert f in Todo(l, st, x);
    }
  }

  lemma NotForgiven(st: State, files: seq<Name>, f: Name)
    requires Inv(st, files) && f in st.pending
    ensures f !in st.forgiven
  {
    hide Requested, Accounted, FirstTime;
  }

  lemma NothingLeft(l: Load, st: State)
    requires Calm(l, st) && st.pending.Keys == {}
    ensures st.reports == [Success]
  {
    hide Reaches, PathTo, Handled, Requested, Accounted, FirstTime, Settled;
  }

  lemma {:induction false} Finishes(l: Load, es: seq<Event>, x: set<Name>) returns (more: seq<Event>)
    requires l.Runs(es) && Calm(l, l.After(es)) && l.Unblocked(x)
    ensures l.Runs(more) && l.After(more).reports == [Success]
    decreases x - l.After(es).processed - l.After(es).forgiven
  {
    hide RootLoad.Start, Run, IsRun, Follows, Deliver, Calm, Todo, Targets;
    var st := l.After(es);
    if st.pending.Keys == {} {
      NothingLeft(l, st);
      more := es;
    } else {
      var f :| f in st.pending;
      if Todo(l, st, x) != {} {
        f := NextFile(l, st, x);
        CalmNext(l, st, x, f);
      } else {
        PendingInside(l, st, x, f);
        CalmForgive(l, st, f);
      }
      PendingInside(l, st, x, f);
      RunMore(l, l.Start(), es, f);
      var next := es + [Event(f, l.world(f))];
      assert f in x - st.processed - st.forgiven && f !in x - l.After(next).processed - l.After(next).forgiven;
      more := Finishes(l, next, x);
    }
  }

  lemma StartCalm(l: Load, x: set<Name>)
    requires l.Unblocked(x)
    ensures Calm(l, l.Start())
  {
    hide Targets, FetchAll, Known;
    StartKnown(l);
    StartAlong(l);
    FetchAllPending(l.cfg, State(l.files, 0, true, map[], {}, {}, []), "", l.names, false);
  }

  lemma EmptyRun(l: Load)
    ensures l.Runs([]) && l.After([]) == l.Start()
  {
  }

  /** Some run of a load succeeds if and only if all needed files can be dealt with. */
  lemma SuccessPossible(l: Load)
    ensures (exists es :: l.Runs(es) && l.After(es).reports == [Success]) <==> l.Smooth()
  {
    hide Known, Run, RootLoad.Start, Calm, Deliver;
    if es :| l.Runs(es) && l.After(es).reports == [Success] {
      SuccessShowsSmooth(l, es);
    }
    if l.Smooth() {
      var x: set<Name> :| l.Unblocked(x);
      StartCalm(l, x);
      EmptyRun(l);
      var es := Finishes(l, [], x);
    }
  }

  /** The outcome of a load depends on the order of completions if and only if there is danger and yet
      everything needed can be dealt with. */
  lemma OrderMatters(l: Load)
    ensures (exists es, fs :: l.Runs(es) && l.Runs(fs) && l.After(es).reports == [Success] && l.After(fs).reports == [Error])
      <==> l.Danger() && l.Smooth()
  {
    hide Run, IsRun, RootLoad.Start, Follows;
    ErrorPossible(l);
    SuccessPossible(l);
  }
}
