/** Which catalog tables never make the engine miss a propagator, whatever the module. */
module TaintTables {
  import opened Options
  import opened TaintSyntax
  import opened TaintRules
  import opened TaintClosure
  import opened TaintWalk
  import opened TaintQuery
  import opened TaintReaders
  import opened TaintExact
  import opened TaintLimits

  type Table = map<Fn, Signature>

  /** A call of such a function can make its result tainted by itself. */
  predicate Yields(sig: Signature) {
    sig.source == Some(false) ||
    (sig.source.None? && sig.passthrough.Some? && !sig.passthrough.value.reverseFlow &&
     (sig.passthrough.value.onReceiver || sig.params != []))
  }

  predicate OnlyGin(sig: Signature, role: GinRole) {
    sig.source.None? && sig.passthrough.None? && sig.gin == Some(role) && sig.params != []
  }

  predicate Has(t: Table, role: GinRole) {
    exists fn | fn in t :: OnlyGin(t[fn], role)
  }

  /** No accessor, no forward propagator, and not both a gin setter and a gin getter. */
  predicate Harmless(t: Table) {
    (forall fn | fn in t :: !Yields(t[fn])) && !(Has(t, GinSet) && Has(t, GinGet))
  }

  /** A function without parameters is called without arguments. */
  predicate ArgsFitBelow(p: Program, info: Info, n: Node) {
    ((n.Call? && Callee(info, n.fun).Some? && Callee(info, n.fun).value in p.funcs &&
      p.funcs[Callee(info, n.fun).value].params == []) ==> n.args == []) &&
    forall i | 0 <= i < |Kids(n)| :: ArgsFitBelow(p, info, Kids(n)[i])
  }

  predicate ArgsFit(p: Program) {
    forall i | 0 <= i < |p.files| :: ArgsFitBelow(p, p.files[i].info, p.files[i].root)
  }

  /** A negative answer's tainted set is closed under the catalogs and reaches no sink. */
  ghost predicate CatalogComplete(p: Program, src: Obj, sinks: set<Fn>) {
    !Final(p, src, sinks).hit ==>
      exists f: Facts :: f.tainted == Final(p, src, sinks).facts.tainted && AllCatalogClosed(p, f) && !SinkReached(p, sinks, f)
  }

  // ---------- harmless tables ----------

  /** The string literals below `n`. */
  function Texts(n: Node): set<string> {
    (if n.StringLit? then {n.text} else {}) + set i, k | 0 <= i < |Kids(n)| && k in Texts(Kids(n)[i]) :: k
  }

  /** All keys a module can store. */
  function KeysOf(p: Program): set<string> {
    if Has(p.funcs, GinSet) then set i, k | 0 <= i < |p.files| && k in Texts(p.files[i].root) :: k else {}
  }

  /** With no outputs, a call adds none, and only keys of the module. */
  lemma HarmlessCall(p: Program, info: Info, n: Node, f: Facts)
    requires Harmless(p.funcs) && n.Call? && ArgsFitBelow(p, info, n)
    requires Has(p.funcs, GinSet) ==> Texts(n) <= f.keys
    requires Has(p.funcs, GinGet) ==> f.keys == {}
    ensures var add := UserInput(p, info, n.fun, n.args, f); add.outputs == {} && add.keys <= f.keys
  {
    if Callee(info, n.fun).Some? && Callee(info, n.fun).value in p.funcs {
      var sig := p.funcs[Callee(info, n.fun).value];
      assert !Yields(sig);
      if sig.gin == Some(GinSet) && |n.args| >= 2 && n.args[0].StringLit? && sig.source.None? && sig.passthrough.None? {
        assert OnlyGin(sig, GinSet);
        assert Kids(n)[1] == n.args[0] && n.args[0].text in Texts(Kids(n)[1]);
      }
      if sig.gin == Some(GinGet) && |n.args| >= 1 && sig.source.None? && sig.passthrough.None? {
        assert OnlyGin(sig, GinGet);
      }
    }
  }

  lemma SameReaders(f: Facts, keys: set<string>)
    ensures forall info, n :: ExprTainted(info, n, f.(keys := keys)) == ExprTainted(info, n, f)
    ensures forall info, n :: ArgTainted(info, n, f.(keys := keys)) == ArgTainted(info, n, f)
  {
    forall info, n ensures ExprTainted(info, n, f.(keys := keys)) == ExprTainted(info, n, f) {
      EngineReads(info, n, f);
      EngineReads(info, n, f.(keys := keys));
    }
    forall info, n ensures ArgTainted(info, n, f.(keys := keys)) == ArgTainted(info, n, f) {
      CatalogReads(info, n, f);
      CatalogReads(info, n, f.(keys := keys));
    }
  }

  /** Flow-closed facts without outputs become closed under the catalogs once they hold the
      keys of the module. */
  lemma {:induction false} HarmlessBelow(p: Program, info: Info, n: Node, sinks: set<Fn>, f: Facts, keys: set<string>)
    requires Harmless(p.funcs) && ArgsFitBelow(p, info, n) && f.outputs == {}
    requires Has(p.funcs, GinSet) ==> Texts(n) <= keys
    requires Has(p.funcs, GinGet) ==> keys == {}
    requires FlowClosedBelow(p, info, n, f)
    ensures CatalogClosedBelow(p, info, n, f.(keys := keys))
    ensures SinkBelow(info, n, sinks, f.(keys := keys)) ==> SinkBelow(info, n, sinks, f)
    decreases n
  {
    var g := f.(keys := keys);
    SameReaders(f, keys);
    HarmlessAt(p, info, n, sinks, f, keys);
    hide CatalogClosed, SinkAt, FlowClosed, Harmless, Has;
    forall i | 0 <= i < |Kids(n)|
      ensures CatalogClosedBelow(p, info, Kids(n)[i], g)
      ensures SinkBelow(info, Kids(n)[i], sinks, g) ==> SinkBelow(info, Kids(n)[i], sinks, f)
    {
      assert Kids(n)[i] in Kids(n) && Texts(Kids(n)[i]) <= Texts(n);
      HarmlessBelow(p, info, Kids(n)[i], sinks, f, keys);
    }
  }

  lemma HarmlessAt(p: Program, info: Info, n: Node, sinks: set<Fn>, f: Facts, keys: set<string>)
    requires Harmless(p.funcs) && ArgsFitBelow(p, info, n) && f.outputs == {}
    requires Has(p.funcs, GinSet) ==> Texts(n) <= keys
    requires Has(p.funcs, GinGet) ==> keys == {}
    requires FlowClosed(p, info, n, f)
    ensures CatalogClosed(p, info, n, f.(keys := keys))
    ensures SinkAt(info, n, sinks, f.(keys := keys)) == SinkAt(info, n, sinks, f)
  {
    var g := f.(keys := keys);
    SameReaders(f, keys);
    if n.Call? {
      HarmlessCall(p, info, n, g);
      hide Harmless, Has, Texts, ArgsFitBelow, ExprTainted, ArgTainted;
      assert UserInput(p, info, n.fun, n.args, g).tainted == UserInput(p, info, n.fun, n.args, f).tainted;
    }
  }

  lemma AllObjectsClosedAt(p: Program, k: nat, n: Node, c: Facts)
    requires k < |p.files| && Objects(p) <= c.tainted
    ensures FlowClosed(p, p.files[k].info, n, c)
    ensures n.Call? ==> BindClosed(p, p.files[k].info, n.fun, n.args, c) && UserInput(p, p.files[k].info, n.fun, n.args, c).tainted <= c.tainted
  {
    var info := p.files[k].info;
    TargetsAreObjects(p, k);
    forall dst: Node ensures DestVar(info, dst) <= InfoObjects(info) { DestVarIsObject(info, dst); }
    if n.Call? && Callee(info, n.fun).Some? {
      var fn := Callee(info, n.fun).value;
      forall o | o in p.Sig(fn).params ensures o in c.tainted { assert fn in p.funcs; }
    }
  }

  lemma {:induction false} AllObjectsClosed(p: Program, k: nat, n: Node, c: Facts)
    requires k < |p.files| && Objects(p) <= c.tainted && c.outputs == {}
    requires Harmless(p.funcs) && ArgsFitBelow(p, p.files[k].info, n)
    requires Has(p.funcs, GinSet) ==> Texts(n) <= c.keys
    requires Has(p.funcs, GinGet) ==> c.keys == {}
    ensures RuleClosedBelow(p, p.files[k].info, n, c)
    decreases n
  {
    var info := p.files[k].info;
    AllObjectsClosedAt(p, k, n, c);
    if n.Call? { HarmlessCall(p, info, n, c); }
    hide Harmless, Has, Objects, FlowClosed, BindClosed, UserInput;
    forall i | 0 <= i < |Kids(n)| ensures RuleClosedBelow(p, info, Kids(n)[i], c) {
      assert Kids(n)[i] in Kids(n) && Texts(Kids(n)[i]) <= Texts(n);
      AllObjectsClosed(p, k, Kids(n)[i], c);
    }
  }

  lemma OutputsStayEmpty(p: Program, src: Obj, sinks: set<Fn>)
    requires Harmless(p.funcs) && ArgsFit(p)
    ensures Final(p, src, sinks).facts.outputs == {}
  {
    var c := Facts(Universe(p, src), {}, KeysOf(p));
    forall i | 0 <= i < |p.files| ensures RuleClosedBelow(p, p.files[i].info, p.files[i].root, c) {
      AllObjectsClosed(p, i, p.files[i].root, c);
    }
    assert AllRuleClosed(p, c);
    FlowsToIsSound(p, src, sinks);
  }

  /** Under a harmless table a negative answer is complete for the propagators. */
  lemma HarmlessIsComplete(p: Program, src: Obj, sinks: set<Fn>) returns (f: Facts)
    requires Harmless(p.funcs) && ArgsFit(p) && !Final(p, src, sinks).hit
    ensures src in f.tainted && f.tainted == Final(p, src, sinks).facts.tainted && f.outputs == {}
    ensures AllCatalogClosed(p, f) && !SinkReached(p, sinks, f)
  {
    OutputsStayEmpty(p, src, sinks);
    FlowsToIsComplete(p, src, sinks);
    var last: State :| src in last.facts.tainted && SettlesFrom(p, sinks, last, Final(p, src, sinks));
    f := last.facts.(keys := KeysOf(p));
    hide Final, SettlesFrom;
    forall i | 0 <= i < |p.files|
      ensures CatalogClosedBelow(p, p.files[i].info, p.files[i].root, f)
      ensures !SinkBelow(p.files[i].info, p.files[i].root, sinks, f)
    {
      HarmlessBelow(p, p.files[i].info, p.files[i].root, sinks, last.facts, KeysOf(p));
    }
  }

  /** A condition on the module alone: when no rule reads a parameter that a call binds and
      the table is harmless, the answer is exact for every source and sink. */
  lemma ExactOnPlainModules(p: Program, src: Obj, sinks: set<Fn>)
    requires Unread(p, Bound(p)) && Harmless(p.funcs) && ArgsFit(p)
    ensures Final(p, src, sinks).hit <==> RulesReach(p, src, sinks)
  {
    FlowsToIsSound(p, src, sinks);
    if !Final(p, src, sinks).hit {
      var f := HarmlessIsComplete(p, src, sinks);
      assert Missed(p, f) <= Bound(p) by {
        forall i | 0 <= i < |p.files| { MissedMono(p, p.files[i].info, p.files[i].root, f, f); }
      }
      UnreadRefutes(p, src, sinks, f, f, Bound(p));
    }
  }

  // ---------- harmful tables ----------

  const SOURCE: Facts := Facts({Var(0)}, {}, {})

  /** A node with two kids, each inside a set of facts of its own that it cannot leave. */
  lemma StagedVisit(p: Program, sinks: set<Fn>, u: set<Obj>, info: Info, n: Node, s: State, c: Facts, d: Facts, e: Facts)
    requires Bounded(p, u, s) && Objects(p) <= u && InfoObjects(info) <= u && s.stack == [] && !s.hit
    requires |Kids(n)| == 2 && IdentsBefore(n) == 0 && !n.FuncDecl?
    requires s.facts.Within(c) && c.Within(d) && d.Within(e)
    requires RuleClosed(p, info, n, c) && !SinkAt(info, n, sinks, c)
    requires RuleClosedBelow(p, info, Kids(n)[0], d) && !SinkBelow(info, Kids(n)[0], sinks, d)
    requires RuleClosedBelow(p, info, Kids(n)[1], e) && !SinkBelow(info, Kids(n)[1], sinks, e)
    ensures var t := Visit(p, sinks, info, n, s); !t.hit && t.facts.Within(e) && s.facts.Within(t.facts)
  {
    EnterKeeps(p, sinks, u, info, n, s);
    EnterSound(p, sinks, info, n, s, c);
    var s0 := Enter(p, sinks, info, n, s);
    var s1 := Visit(p, sinks, info, Kids(n)[0], s0);
    var s2 := Visit(p, sinks, info, Kids(n)[1], s1);
    assert s0.stack == [] && Pop(s0, 0) == s0;
    VisitKeeps(p, sinks, u, info, Kids(n)[0], s0);
    VisitSound(p, sinks, u, info, Kids(n)[0], s0, d);
    VisitKeeps(p, sinks, u, info, Kids(n)[1], s1);
    VisitSound(p, sinks, u, info, Kids(n)[1], s1, e);
    hide Enter, RuleClosed, RuleClosedBelow, SinkBelow, Objects, InfoObjects;
    assert VisitKids(p, sinks, info, n, 2, s2) == s2;
    assert VisitKids(p, sinks, info, n, 1, s1) == s2;
    assert VisitKids(p, sinks, info, n, 0, s0) == s2;
  }

  lemma StartIsBounded(p: Program)
    ensures var s, u := Start(Var(0)), Universe(p, Var(0));
      Bounded(p, u, s) && Objects(p) <= u && s.stack == [] && !s.hit && s.facts == SOURCE
    ensures |p.files| == 1 ==> InfoObjects(p.files[0].info) <= Universe(p, Var(0))
    ensures forall os, ks :: SOURCE.Within(SOURCE) && SOURCE.Within(SOURCE.(outputs := os)) && SOURCE.Within(SOURCE.(keys := ks))
    ensures forall f, g: Facts :: SOURCE.Within(f) && f.Within(g) && g.tainted == {Var(0)} ==> f.tainted == {Var(0)}
  {
    if |p.files| == 1 { TargetsAreObjects(p, 0); }
  }

  /** The walk of a file with one statement is the walk of that statement. */
  lemma VisitFile(p: Program, sinks: set<Fn>, u: set<Obj>, info: Info, m: Node, s: State)
    requires Bounded(p, u, s) && Objects(p) <= u && InfoObjects(info) <= u && s.stack == [] && !s.hit
    requires !Visit(p, sinks, info, m, s).hit
    ensures Visit(p, sinks, info, Tree([m]), s) == Visit(p, sinks, info, m, s)
  {
    var t := Visit(p, sinks, info, m, s);
    VisitKeeps(p, sinks, u, info, m, s);
    assert Kids(Tree([m])) == [m] && Pop(s, 0) == s && Pop(t, 1) == t;
    assert VisitKids(p, sinks, info, Tree([m]), 1, t) == t;
    assert VisitKids(p, sinks, info, Tree([m]), 0, s) == t;
  }

  /** No call, assignment or literal: nothing any rule looks at. */
  predicate Inert(n: Node) {
    !n.Call? && !n.Assign? && !n.Composite? && forall i | 0 <= i < |Kids(n)| :: Inert(Kids(n)[i])
  }

  lemma {:induction false} InertIsClosed(p: Program, info: Info, n: Node, sinks: set<Fn>, c: Facts)
    requires Inert(n)
    ensures RuleClosedBelow(p, info, n, c) && !SinkBelow(info, n, sinks, c) && ArgsFitBelow(p, info, n)
    decreases n
  {
    forall i | 0 <= i < |Kids(n)|
      ensures RuleClosedBelow(p, info, Kids(n)[i], c) && !SinkBelow(info, Kids(n)[i], sinks, c) && ArgsFitBelow(p, info, Kids(n)[i])
    {
      assert Kids(n)[i] in Kids(n);
      InertIsClosed(p, info, Kids(n)[i], sinks, c);
    }
  }

  /** Further functions bring no rows. */
  predicate Extends(funcs: Table, table: Table) {
    (forall fn | fn in table :: fn in funcs && funcs[fn] == table[fn]) &&
    forall fn | fn in funcs && fn !in table ::
      funcs[fn].source.None? && funcs[fn].passthrough.None? && funcs[fn].gin.None?
  }

  /** Clean for the engine's reader, tainted for the propagators': the source and a literal
      concatenated. */
  const JOINED := Binary(true, Ident(0), StringLit(""))

  lemma JoinedSplits(info: Info, f: Facts)
    requires 0 in info.uses && info.uses[0] == Var(0)
    ensures Inert(JOINED) && Inert(Paren(JOINED)) && !ExprTainted(info, JOINED, f)
    ensures Var(0) in f.tainted ==> ArgTainted(info, JOINED, f) && ArgTainted(info, Paren(JOINED), f)
  {
    assert Kids(JOINED) == [Ident(0), StringLit("")] && Kids(Paren(JOINED)) == [JOINED];
    assert Kids(Ident(0)) == [] && Kids(StringLit("")) == [];
    assert Inert(Ident(0)) && Inert(StringLit(""));
    assert Var(0) in f.tainted ==> ArgTainted(info, Ident(0), f);
  }

  // ---------- one row that yields ----------

  function RowInfo(fn: Fn, sink: Fn): Info {
    Info(map[0 := Var(0), 1 := Func(sink), 2 := Func(fn)], map[], map[20 := Func(fn)], map[])
  }

  function RowCall(sig: Signature): Node {
    Call(Selector(20, Paren(JOINED), 2), seq(|sig.params|, _ => JOINED))
  }

  function WithSink(table: Table, sink: Fn): Table {
    table[sink := Plain([Var(90)])]
  }

  /** `sink((src + "").fn(src + "", ...))`. */
  function RowModule(table: Table, fn: Fn, sink: Fn): Program
    requires fn in table
  {
    Program([File(RowInfo(fn, sink), Tree([Call(Ident(1), [RowCall(table[fn])])]))], WithSink(table, sink))
  }

  lemma RowCallStays(table: Table, fn: Fn, sink: Fn)
    requires fn in table && Yields(table[fn]) && sink !in table
    ensures var p, info, n := RowModule(table, fn, sink), RowInfo(fn, sink), RowCall(table[fn]);
      RuleClosedBelow(p, info, n, SOURCE.(outputs := {fn})) && !SinkBelow(info, n, {sink}, SOURCE.(outputs := {fn})) &&
      ArgsFitBelow(p, info, n)
  {
    var p, info, n := RowModule(table, fn, sink), RowInfo(fn, sink), RowCall(table[fn]);
    var c := SOURCE.(outputs := {fn});
    JoinedSplits(info, c);
    assert Kids(n.fun) == [Paren(JOINED)];
    assert Inert(n.fun);
    InertIsClosed(p, info, n.fun, {sink}, c);
    InertIsClosed(p, info, JOINED, {sink}, c);
    assert Kids(n) == [n.fun] + n.args;
    assert RuleClosed(p, info, n, c) && !SinkAt(info, n, {sink}, c) by {
      assert p.Sig(fn) == table[fn] && Callee(info, n.fun) == Some(fn);
      assert RecoveryVars(p, info, n.fun, n.args) == {};
    }
    hide RuleClosed, SinkAt;
  }

  lemma RowSinkStays(table: Table, fn: Fn, sink: Fn)
    requires fn in table && Yields(table[fn]) && sink !in table
    ensures var p, info, n := RowModule(table, fn, sink), RowInfo(fn, sink), Call(Ident(1), [RowCall(table[fn])]);
      RuleClosed(p, info, n, SOURCE) && !SinkAt(info, n, {sink}, SOURCE) && ArgsFitBelow(p, info, n)
  {
    var p, info, row := RowModule(table, fn, sink), RowInfo(fn, sink), RowCall(table[fn]);
    var n := Call(Ident(1), [row]);
    RowCallStays(table, fn, sink);
    InertIsClosed(p, info, Ident(1), {sink}, SOURCE);
    assert Kids(n) == [Ident(1), row];
    assert p.Sig(sink) == Plain([Var(90)]) && Callee(info, Ident(1)) == Some(sink) && Callee(info, row.fun) == Some(fn);
    JoinedSplits(info, SOURCE);
    assert !ExprTainted(info, row, SOURCE);
  }

  lemma RowModuleAnswersNo(table: Table, fn: Fn, sink: Fn)
    requires fn in table && Yields(table[fn]) && sink !in table
    ensures var p := RowModule(table, fn, sink);
      ArgsFit(p) && !Final(p, Var(0), {sink}).hit && Final(p, Var(0), {sink}).facts.tainted == {Var(0)}
  {
    var p, info, row := RowModule(table, fn, sink), RowInfo(fn, sink), RowCall(table[fn]);
    var n, s := Call(Ident(1), [row]), Start(Var(0));
    assert Kids(n) == [Ident(1), row] && Kids(Tree([n])) == [n];
    RowCallStays(table, fn, sink);
    RowSinkStays(table, fn, sink);
    InertIsClosed(p, info, Ident(1), {sink}, SOURCE);
    StartIsBounded(p);
    assert ArgsFit(p) && |p.files| == 1 && p.files[0] == File(info, Tree([n])) && IdentsBefore(n) == 0;
    hide *;
    StagedVisit(p, {sink}, Universe(p, Var(0)), info, n, s, SOURCE, SOURCE, SOURCE.(outputs := {fn}));
    VisitFile(p, {sink}, Universe(p, Var(0)), info, n, s);
    QuietOnce(p, {sink}, Var(0), Visit(p, {sink}, info, n, s));
  }

  lemma RowModuleReachesSink(table: Table, fn: Fn, sink: Fn, f: Facts)
    requires fn in table && Yields(table[fn]) && sink !in table
    requires var p := RowModule(table, fn, sink); Var(0) in f.tainted && AllCatalogClosed(p, f)
    ensures SinkReached(RowModule(table, fn, sink), {sink}, f)
  {
    var p, info, row := RowModule(table, fn, sink), RowInfo(fn, sink), RowCall(table[fn]);
    var n := Call(Ident(1), [row]);
    assert Kids(Tree([n]))[0] == n && Kids(n)[1] == row;
    assert CatalogClosedBelow(p, info, p.files[0].root, f);
    assert CatalogClosedBelow(p, info, Kids(Tree([n]))[0], f);
    assert CatalogClosedBelow(p, info, Kids(n)[1], f);
    assert fn in f.outputs by {
      assert p.Sig(fn) == table[fn] && Callee(info, row.fun) == Some(fn);
      JoinedSplits(info, f);
      if |row.args| > 0 { assert ArgTainted(info, row.args[0], f); }
    }
    assert ExprTainted(info, n.args[0], f);
    assert SinkBelow(info, Kids(Tree([n]))[0], {sink}, f);
    assert SinkBelow(info, p.files[0].root, {sink}, f);
  }

  // ---------- a setter and a getter ----------

  const GIN_KEY := StringLit("k")
  const GET_CALL := Call(Ident(2), [GIN_KEY])
  const SINK_GET := Call(Ident(1), [GET_CALL])
  const SET_CALL := Call(Ident(3), [GIN_KEY, JOINED])

  function GinInfo(put: Fn, get: Fn, sink: Fn): Info {
    Info(map[0 := Var(0), 1 := Func(sink), 2 := Func(get), 3 := Func(put)], map[], map[], map[])
  }

  /** `sink(get("k"))` and then `set("k", src + "")`. */
  function GinModule(table: Table, put: Fn, get: Fn, sink: Fn): Program {
    Program([File(GinInfo(put, get, sink), Tree([SINK_GET, SET_CALL]))], WithSink(table, sink))
  }

  predicate GinPair(table: Table, put: Fn, get: Fn, sink: Fn) {
    put in table && OnlyGin(table[put], GinSet) && get in table && OnlyGin(table[get], GinGet) && sink !in table
  }

  lemma SinkGetStays(table: Table, put: Fn, get: Fn, sink: Fn)
    requires GinPair(table, put, get, sink)
    ensures var p, info := GinModule(table, put, get, sink), GinInfo(put, get, sink);
      RuleClosedBelow(p, info, SINK_GET, SOURCE) && !SinkBelow(info, SINK_GET, {sink}, SOURCE) && ArgsFitBelow(p, info, SINK_GET)
  {
    var p, info := GinModule(table, put, get, sink), GinInfo(put, get, sink);
    assert Kids(SINK_GET) == [Ident(1), GET_CALL] && Kids(GET_CALL) == [Ident(2), GIN_KEY];
    InertIsClosed(p, info, Ident(1), {sink}, SOURCE);
    InertIsClosed(p, info, Ident(2), {sink}, SOURCE);
    InertIsClosed(p, info, GIN_KEY, {sink}, SOURCE);
    assert p.Sig(sink) == Plain([Var(90)]) && Callee(info, Ident(1)) == Some(sink);
    assert p.Sig(get) == table[get] && Callee(info, Ident(2)) == Some(get);
    assert !ExprTainted(info, GIN_KEY, SOURCE) && !ExprTainted(info, GET_CALL, SOURCE);
    assert RuleClosedBelow(p, info, GET_CALL, SOURCE) && !SinkBelow(info, GET_CALL, {sink}, SOURCE);
    assert ArgsFitBelow(p, info, GET_CALL);
  }

  lemma SetStays(table: Table, put: Fn, get: Fn, sink: Fn)
    requires GinPair(table, put, get, sink)
    ensures var p, info, c := GinModule(table, put, get, sink), GinInfo(put, get, sink), SOURCE.(keys := {"k"});
      RuleClosedBelow(p, info, SET_CALL, c) && !SinkBelow(info, SET_CALL, {sink}, c) && ArgsFitBelow(p, info, SET_CALL)
  {
    var p, info, c := GinModule(table, put, get, sink), GinInfo(put, get, sink), SOURCE.(keys := {"k"});
    assert Kids(SET_CALL) == [Ident(3), GIN_KEY, JOINED];
    JoinedSplits(info, c);
    InertIsClosed(p, info, Ident(3), {sink}, c);
    InertIsClosed(p, info, GIN_KEY, {sink}, c);
    InertIsClosed(p, info, JOINED, {sink}, c);
    assert p.Sig(put) == table[put] && Callee(info, Ident(3)) == Some(put);
    assert !ExprTainted(info, GIN_KEY, c);
  }

  lemma GinModuleAnswersNo(table: Table, put: Fn, get: Fn, sink: Fn)
    requires GinPair(table, put, get, sink)
    ensures var p := GinModule(table, put, get, sink);
      ArgsFit(p) && !Final(p, Var(0), {sink}).hit && Final(p, Var(0), {sink}).facts.tainted == {Var(0)}
  {
    var p, info := GinModule(table, put, get, sink), GinInfo(put, get, sink);
    var n, s := Tree([SINK_GET, SET_CALL]), Start(Var(0));
    assert Kids(n) == [SINK_GET, SET_CALL];
    SinkGetStays(table, put, get, sink);
    SetStays(table, put, get, sink);
    assert RuleClosed(p, info, n, SOURCE) && !SinkAt(info, n, {sink}, SOURCE);
    StartIsBounded(p);
    assert ArgsFit(p) && |p.files| == 1 && p.files[0] == File(info, n);
    hide *;
    StagedVisit(p, {sink}, Universe(p, Var(0)), info, n, s, SOURCE, SOURCE, SOURCE.(keys := {"k"}));
    QuietOnce(p, {sink}, Var(0), Visit(p, {sink}, info, n, s));
  }

  lemma GinModuleReachesSink(table: Table, put: Fn, get: Fn, sink: Fn, f: Facts)
    requires GinPair(table, put, get, sink)
    requires var p := GinModule(table, put, get, sink); Var(0) in f.tainted && AllCatalogClosed(p, f)
    ensures SinkReached(GinModule(table, put, get, sink), {sink}, f)
  {
    var p, info := GinModule(table, put, get, sink), GinInfo(put, get, sink);
    var root := p.files[0].root;
    assert Kids(root) == [SINK_GET, SET_CALL] && CatalogClosedBelow(p, info, root, f);
    assert CatalogClosedBelow(p, info, Kids(root)[0], f) && CatalogClosedBelow(p, info, Kids(root)[1], f);
    assert Kids(SINK_GET)[1] == GET_CALL && CatalogClosedBelow(p, info, Kids(SINK_GET)[1], f);
    assert "k" in f.keys by {
      assert p.Sig(put) == table[put] && Callee(info, Ident(3)) == Some(put);
      JoinedSplits(info, f);
    }
    assert get in f.outputs by {
      assert p.Sig(get) == table[get] && Callee(info, Ident(2)) == Some(get);
    }
    assert ExprTainted(info, SINK_GET.args[0], f);
    assert SinkBelow(info, Kids(root)[0], {sink}, f);
    assert SinkBelow(info, root, {sink}, f);
  }

  // ---------- the exact condition ----------

  lemma UnusedFn(fns: set<Fn>) returns (unused: Fn)
    ensures forall fn | fn in fns :: fn < unused
  {
    if fns == {} {
      unused := 0;
    } else {
      var x :| x in fns;
      var y := UnusedFn(fns - {x});
      unused := if x < y then y else x + 1;
      forall fn | fn in fns ensures fn < unused {
        if fn != x { assert fn in fns - {x}; }
      }
    }
  }

  /** Every module over the table is answered completely for the propagators. */
  ghost predicate NeverMisses(table: Table) {
    forall p: Program, src, sinks | Extends(p.funcs, table) && ArgsFit(p) :: CatalogComplete(p, src, sinks)
  }

  lemma HarmlessExtends(funcs: Table, table: Table)
    requires Extends(funcs, table) && Harmless(table)
    ensures Harmless(funcs)
  {
    forall role ensures Has(funcs, role) ==> Has(table, role) {}
  }

  /** Sweeping by newly tainted objects never misses a propagator, whatever the module,
      source and sinks, if and only if the table has no accessor, no forward propagator, and
      not both a setter and a getter of context keys. */
  lemma TablesExactly(table: Table)
    ensures NeverMisses(table) <==> Harmless(table)
  {
    hide Yields, Final, AllCatalogClosed, SinkReached;
    if Harmless(table) {
      forall p: Program, src, sinks | Extends(p.funcs, table) && ArgsFit(p) ensures CatalogComplete(p, src, sinks) {
        HarmlessExtends(p.funcs, table);
        if !Final(p, src, sinks).hit { var f := HarmlessIsComplete(p, src, sinks); }
      }
    } else {
      var sink := UnusedFn(table.Keys);
      if fn :| fn in table && Yields(table[fn]) {
        var p := RowModule(table, fn, sink);
        RowModuleAnswersNo(table, fn, sink);
        forall f: Facts | Var(0) in f.tainted && AllCatalogClosed(p, f) ensures SinkReached(p, {sink}, f) {
          RowModuleReachesSink(table, fn, sink, f);
        }
        assert Extends(p.funcs, table) && !CatalogComplete(p, Var(0), {sink});
      } else {
        var f, g :| f in table && OnlyGin(table[f], GinSet) && g in table && OnlyGin(table[g], GinGet);
        var p := GinModule(table, f, g, sink);
        GinModuleAnswersNo(table, f, g, sink);
        forall c: Facts | Var(0) in c.tainted && AllCatalogClosed(p, c) ensures SinkReached(p, {sink}, c) {
          GinModuleReachesSink(table, f, g, sink, c);
        }
        assert Extends(p.funcs, table) && !CatalogComplete(p, Var(0), {sink});
      }
    }
  }
}
