/** When the lower bound of a query reaches further: sweeps that change nothing at all,
  completeness for the propagators, and what parameter binding does and does not add. */
module TaintExact {
  import opened Options
  import opened TaintSyntax
  import opened TaintRules
  import opened TaintClosure
  import opened TaintWalk
  import opened TaintQuery
  import opened TaintReaders

  // ---------- closed under everything but binding ----------

  /** Closed under the flow rules and under every output and key the catalogs add. */
  predicate CatalogClosed(p: Program, info: Info, n: Node, c: Facts) {
    FlowClosed(p, info, n, c) && (n.Call? ==> UserInput(p, info, n.fun, n.args, c).Within(c))
  }

  predicate CatalogClosedBelow(p: Program, info: Info, n: Node, c: Facts) {
    CatalogClosed(p, info, n, c) && forall i | 0 <= i < |Kids(n)| :: CatalogClosedBelow(p, info, Kids(n)[i], c)
  }

  predicate AllCatalogClosed(p: Program, c: Facts) {
    forall i | 0 <= i < |p.files| :: CatalogClosedBelow(p, p.files[i].info, p.files[i].root, c)
  }

  // ---------- a sweep that changes no fact ----------

  lemma EnterStationary(p: Program, sinks: set<Fn>, u: set<Obj>, info: Info, n: Node, s: State)
    requires Bounded(p, u, s) && Objects(p) <= u && InfoObjects(info) <= u && s.stack == [] && !s.hit
    requires var t := Enter(p, sinks, info, n, s); !t.hit && t.facts == s.facts
    ensures CatalogClosed(p, info, n, s.facts)
  {
    EnterClosed(p, sinks, u, info, n, s, s.facts);
    if n.Call? {
      CallStationary(p, sinks, u, info, n.fun, n.args, s);
    }
  }

  lemma CallStationary(p: Program, sinks: set<Fn>, u: set<Obj>, info: Info, fun: Node, args: seq<Node>, s: State)
    requires Bounded(p, u, s) && Objects(p) <= u && InfoObjects(info) <= u && !s.hit
    requires var t := EnterCall(p, sinks, info, fun, args, s); !t.hit && t.facts == s.facts
    ensures UserInput(p, info, fun, args, s.facts).Within(s.facts)
  {
    var s1 := Mark(s, RecoveryVars(p, info, fun, args), 0);
    var s2 := ApplyUserInput(p, info, fun, args, s1);
    assert RecoveryVars(p, info, fun, args) <= u;
    UserInputKeeps(p, u, info, fun, args, s1);
    Rule3Keeps(p, u, info, fun, args, s2);
    assert s1.facts == s.facts;
  }

  lemma {:induction false} VisitStationary(p: Program, sinks: set<Fn>, u: set<Obj>, info: Info, n: Node, s: State)
    requires Bounded(p, u, s) && Objects(p) <= u && InfoObjects(info) <= u && s.stack == [] && !s.hit
    requires var t := Visit(p, sinks, info, n, s); !t.hit && t.facts == s.facts
    ensures CatalogClosedBelow(p, info, n, s.facts)
    decreases n
  {
    EnterKeeps(p, sinks, u, info, n, s);
    var s1 := Enter(p, sinks, info, n, s);
    var s2 := Pop(s1, IdentsBefore(n));
    KidsKeep(p, sinks, u, info, n, 0, s2);
    assert s1.facts == s.facts;
    EnterStationary(p, sinks, u, info, n, s);
    KidsStationary(p, sinks, u, info, n, 0, s2);
  }

  lemma {:induction false} KidsStationary(p: Program, sinks: set<Fn>, u: set<Obj>, info: Info, n: Node, i: nat, s: State)
    requires i <= |Kids(n)|
    requires Bounded(p, u, s) && Objects(p) <= u && InfoObjects(info) <= u && s.stack == [] && !s.hit
    requires var t := VisitKids(p, sinks, info, n, i, s); !t.hit && t.facts == s.facts
    ensures forall j | i <= j < |Kids(n)| :: CatalogClosedBelow(p, info, Kids(n)[j], s.facts)
    decreases n, |Kids(n)| - i
  {
    hide Visit, InfoObjects, Objects, CatalogClosedBelow;
    if i < |Kids(n)| {
      var s1 := Visit(p, sinks, info, Kids(n)[i], s);
      VisitKeeps(p, sinks, u, info, Kids(n)[i], s);
      if s1.hit { HitStays(p, sinks, info, n, i + 1, s1); }
      KidsKeep(p, sinks, u, info, n, i + 1, s1);
      assert s1.facts == s.facts;
      VisitStationary(p, sinks, u, info, Kids(n)[i], s);
      KidsStationary(p, sinks, u, info, n, i + 1, s1);
    }
  }

  /** The first walk of a sweep that changes no fact changes none, nor do the rest. */
  lemma FirstWalkStationary(p: Program, sinks: set<Fn>, u: set<Obj>, i: nat, s: State)
    requires i < |p.files| && Bounded(p, u, s) && Objects(p) <= u && !s.hit
    requires var t := Sweep(p, sinks, i, s); !t.hit && t.facts == s.facts
    ensures InfoObjects(p.files[i].info) <= u
    ensures var s1 := Visit(p, sinks, p.files[i].info, p.files[i].root, s.(stack := []));
      !s1.hit && s1.facts == s.facts && Bounded(p, u, s1) && Sweep(p, sinks, i, s) == Sweep(p, sinks, i + 1, s1)
  {
    var s1 := Visit(p, sinks, p.files[i].info, p.files[i].root, s.(stack := []));
    TargetsAreObjects(p, i);
    VisitKeeps(p, sinks, u, p.files[i].info, p.files[i].root, s.(stack := []));
    SweepKeeps(p, sinks, u, i + 1, s1);
    hide Visit, InfoObjects, Objects;
  }

  lemma {:induction false} SweepStationary(p: Program, sinks: set<Fn>, u: set<Obj>, i: nat, s: State)
    requires i <= |p.files| && Bounded(p, u, s) && Objects(p) <= u && !s.hit
    requires var t := Sweep(p, sinks, i, s); !t.hit && t.facts == s.facts
    ensures forall j | i <= j < |p.files| :: CatalogClosedBelow(p, p.files[j].info, p.files[j].root, s.facts)
    decreases |p.files| - i
  {
    hide Sweep, Visit, CatalogClosedBelow, InfoObjects, Objects;
    if i < |p.files| {
      FirstWalkStationary(p, sinks, u, i, s);
      VisitStationary(p, sinks, u, p.files[i].info, p.files[i].root, s.(stack := []));
      SweepStationary(p, sinks, u, i + 1, Visit(p, sinks, p.files[i].info, p.files[i].root, s.(stack := [])));
    }
  }

  // ---------- enough sweeps after the last new object ----------

  /** How many outputs and keys `f` still lacks of `g`. */
  function Slack(f: Facts, g: Facts): int {
    |g.outputs| - |f.outputs| + |g.keys| - |f.keys|
  }

  lemma SlackShrinks(f: Facts, t: Facts, g: Facts)
    requires f.Within(t) && t.Within(g) && f.tainted == t.tainted
    ensures 0 <= Slack(t, g) <= Slack(f, g) && (f != t ==> Slack(t, g) < Slack(f, g))
  {
    SubsetSize(f.outputs, t.outputs);
    SubsetSize(f.keys, t.keys);
    SubsetSize(t.outputs, g.outputs);
    SubsetSize(t.keys, g.keys);
  }

  /** When the tainted set outnumbers the outputs and keys, some sweep after the last new
      object changes nothing: its facts are closed under everything but binding. */
  lemma {:induction false} DrainStationary(p: Program, sinks: set<Fn>, u: set<Obj>, s: State, pending: nat) returns (last: State)
    requires Bounded(p, u, s) && Objects(p) <= u && !s.hit && pending > 0 && s.facts.tainted != {}
    requires !Drain(p, sinks, u, s, pending).hit
    requires var t := Drain(p, sinks, u, s, pending).facts;
      |t.tainted| > |t.outputs| + |t.keys| && (t.tainted == s.facts.tainted ==> pending > Slack(s.facts, t))
    ensures var t := Drain(p, sinks, u, s, pending);
      s.facts.Within(last.facts) && last.facts.Within(t.facts) && last.facts.tainted == t.facts.tainted
    ensures AllCatalogClosed(p, last.facts) && !SinkReached(p, sinks, last.facts)
    decreases |u - s.facts.tainted|, pending
  {
    var end := Drain(p, sinks, u, s, pending);
    var t := Sweep(p, sinks, 0, s);
    SweepKeeps(p, sinks, u, 0, s);
    SubsetSize(u - t.facts.tainted, u - s.facts.tainted);
    hide Sweep, Objects, CatalogClosedBelow, FlowClosedBelow, SinkBelow, Slack, Bounded;
    if t.facts.tainted != s.facts.tainted {
      Outnumbered(t.facts, end.facts);
      last := DrainStationary(p, sinks, u, t, |t.facts.tainted|);
    } else if end.facts.tainted != s.facts.tainted {
      last := DrainStationary(p, sinks, u, t, pending - 1);
    } else if t.facts == s.facts {
      last := s;
      SweepClosed(p, sinks, u, 0, s, s.facts);
      SweepStationary(p, sinks, u, 0, s);
    } else {
      SlackShrinks(s.facts, t.facts, end.facts);
      last := DrainStationary(p, sinks, u, t, pending - 1);
    }
  }

  lemma Outnumbered(t: Facts, end: Facts)
    requires t.Within(end) && |end.tainted| > |end.outputs| + |end.keys|
    ensures end.tainted == t.tainted ==> |t.tainted| > Slack(t, end)
  {
  }

  /** A negative answer, once more objects are tainted than outputs and keys, is complete
      for the propagators too: the same tainted set, with outputs and keys of the query, is
      closed under every rule but binding and touches no sink. */
  lemma PropagatorsAreComplete(p: Program, src: Obj, sinks: set<Fn>) returns (f: Facts)
    requires var t := Final(p, src, sinks); !t.hit && |t.facts.tainted| > |t.facts.outputs| + |t.facts.keys|
    ensures src in f.tainted && f.Within(Final(p, src, sinks).facts) && f.tainted == Final(p, src, sinks).facts.tainted
    ensures AllCatalogClosed(p, f) && !SinkReached(p, sinks, f)
  {
    var s := Start(src);
    var end := Final(p, src, sinks);
    Outnumbered(s.facts, end.facts);
    var last := DrainStationary(p, sinks, Universe(p, src), s, 1);
    f := last.facts;
  }

  // ---------- parameter binding ----------

  lemma {:induction false} BindTaints(info: Info, args: seq<Node>, params: seq<Obj>, i: nat, d: nat, s: State, k: nat)
    requires i <= k < |args| && k < |params| && ExprTainted(info, args[k], s.facts)
    ensures var t := Bind(info, args, params, i, d, s);
      params[k] in t.facts.tainted && params[k] in t.depth && t.depth[params[k]] == d
    decreases |args| - i
  {
    var s1 := if ExprTainted(info, args[i], s.facts) then Mark(s, {params[i]}, d) else s;
    if i == k {
      BindGrows(info, args, params, i + 1, d, s1);
    } else {
      ExprTaintedMono(info, args[k], s.facts, s1.facts);
      BindTaints(info, args, params, i + 1, d, s1, k);
    }
  }

  lemma {:induction false} BindGrows(info: Info, args: seq<Node>, params: seq<Obj>, i: nat, d: nat, s: State)
    ensures s.facts.Within(Bind(info, args, params, i, d, s).facts)
    ensures forall o | o in s.depth && s.depth[o] == d :: o in Bind(info, args, params, i, d, s).depth && Bind(info, args, params, i, d, s).depth[o] == d
    decreases |args| - i
  {
    if i < |args| && i < |params| {
      BindGrows(info, args, params, i + 1, d, if ExprTainted(info, args[i], s.facts) then Mark(s, {params[i]}, d) else s);
    }
  }

  /** Binding works exactly on the first call of a function, and there only while every
      object is less than `MAX_DEPTH` deep: after a call, the parameter of a tainted
      argument is tainted if and only if it was before, or the callee was not yet visited
      and no object is at the limit. A parameter bound so is one deeper than the deepest
      object before the call. */
  lemma BindingExactly(p: Program, info: Info, fun: Node, args: seq<Node>, s: State, i: nat)
    requires Callee(info, fun).Some? && !p.Sig(Callee(info, fun).value).ifaceRecv
    requires i < |args| && i < |p.Sig(Callee(info, fun).value).params| && ExprTainted(info, args[i], s.facts)
    ensures var fn, t := Callee(info, fun).value, Rule3(p, info, fun, args, s);
      var param := p.Sig(fn).params[i];
      var binds := fn !in s.visited && forall o | o in s.depth :: s.depth[o] < MAX_DEPTH;
      (param in t.facts.tainted <==> param in s.facts.tainted || binds) &&
      (binds ==> param in t.depth && (forall o | o in s.depth :: s.depth[o] < t.depth[param]) &&
                 (t.depth[param] == 1 || exists o | o in s.depth :: s.depth[o] + 1 == t.depth[param])) &&
      (!binds ==> t.facts == s.facts && t.depth == s.depth)
  {
    var fn := Callee(info, fun).value;
    if fn !in s.visited && Deepest(s.depth) + 1 <= MAX_DEPTH {
      var s1 := s.(visited := s.visited + {fn});
      BindTaints(info, args, p.Sig(fn).params, 0, Deepest(s1.depth) + 1, s1, i);
    }
  }

  // ---------- what binding misses ----------

  /** The parameters a call binds: those of a concrete callee that get an argument. */
  function BoundAt(p: Program, info: Info, n: Node): set<Obj> {
    if n.Call? && Callee(info, n.fun).Some? && !p.Sig(Callee(info, n.fun).value).ifaceRecv then
      var params := p.Sig(Callee(info, n.fun).value).params;
      set i | 0 <= i < |n.args| && i < |params| :: params[i]
    else {}
  }

  /** Those of them that binding misses in `f`: the argument is tainted, the parameter is not. */
  function MissedAt(p: Program, info: Info, n: Node, f: Facts): set<Obj> {
    if n.Call? && Callee(info, n.fun).Some? && !p.Sig(Callee(info, n.fun).value).ifaceRecv then
      var params := p.Sig(Callee(info, n.fun).value).params;
      set i | 0 <= i < |n.args| && i < |params| && ExprTainted(info, n.args[i], f) && params[i] !in f.tainted :: params[i]
    else {}
  }

  function BoundBelow(p: Program, info: Info, n: Node): set<Obj> {
    BoundAt(p, info, n) + set i, o | 0 <= i < |Kids(n)| && o in BoundBelow(p, info, Kids(n)[i]) :: o
  }

  function MissedBelow(p: Program, info: Info, n: Node, f: Facts): set<Obj> {
    MissedAt(p, info, n, f) + set i, o | 0 <= i < |Kids(n)| && o in MissedBelow(p, info, Kids(n)[i], f) :: o
  }

  function Bound(p: Program): set<Obj> {
    set i, o | 0 <= i < |p.files| && o in BoundBelow(p, p.files[i].info, p.files[i].root) :: o
  }

  function Missed(p: Program, f: Facts): set<Obj> {
    set i, o | 0 <= i < |p.files| && o in MissedBelow(p, p.files[i].info, p.files[i].root, f) :: o
  }

  /** What the rules read at a node, through either reader. */
  function ReadAt(info: Info, n: Node): set<Atom> {
    match n
    case Assign(_, rhs) => set i, a | 0 <= i < |rhs| && a in EngineAtoms(info, rhs[i]) :: a
    case Composite(_, elts) =>
      set i, a | 0 <= i < |elts| && elts[i].KeyValue? && a in EngineAtoms(info, elts[i].value) :: a
    case Call(fun, args) =>
      (set i, a | 0 <= i < |args| && a in EngineAtoms(info, args[i]) + CatalogAtoms(info, args[i]) :: a) +
      (if fun.Selector? then CatalogAtoms(info, fun.x) else {})
    case _ => {}
  }

  /** No rule reads an object of `b` at `n`. */
  predicate UnreadAt(info: Info, n: Node, b: set<Obj>) {
    forall o | o in b :: OfObj(o) !in ReadAt(info, n)
  }

  predicate UnreadBelow(info: Info, n: Node, b: set<Obj>) {
    UnreadAt(info, n, b) && forall i | 0 <= i < |Kids(n)| :: UnreadBelow(info, Kids(n)[i], b)
  }

  predicate Unread(p: Program, b: set<Obj>) {
    forall i | 0 <= i < |p.files| :: UnreadBelow(p.files[i].info, p.files[i].root, b)
  }

  /** `f` with the objects of `b` tainted as well. */
  function With(f: Facts, b: set<Obj>): Facts {
    f.(tainted := f.tainted + b)
  }

  lemma SameTaint(info: Info, n: Node, f: Facts, b: set<Obj>)
    ensures (forall o | o in b :: OfObj(o) !in EngineAtoms(info, n)) ==>
      (ExprTainted(info, n, With(f, b)) <==> ExprTainted(info, n, f))
    ensures (forall o | o in b :: OfObj(o) !in CatalogAtoms(info, n)) ==>
      (ArgTainted(info, n, With(f, b)) <==> ArgTainted(info, n, f))
  {
    EngineReads(info, n, f);
    EngineReads(info, n, With(f, b));
    CatalogReads(info, n, f);
    CatalogReads(info, n, With(f, b));
    hide ExprTainted, ArgTainted, EngineAtoms, CatalogAtoms;
  }

  lemma SameTaintAt(info: Info, n: Node, f: Facts, b: set<Obj>)
    requires UnreadAt(info, n, b)
    ensures n.Assign? ==> forall i | 0 <= i < |n.rhs| :: ExprTainted(info, n.rhs[i], With(f, b)) == ExprTainted(info, n.rhs[i], f)
    ensures n.Composite? ==> forall i | 0 <= i < |n.elts| && n.elts[i].KeyValue? ::
      ExprTainted(info, n.elts[i].value, With(f, b)) == ExprTainted(info, n.elts[i].value, f)
    ensures n.Call? ==> forall i | 0 <= i < |n.args| ::
      ExprTainted(info, n.args[i], With(f, b)) == ExprTainted(info, n.args[i], f) &&
      ArgTainted(info, n.args[i], With(f, b)) == ArgTainted(info, n.args[i], f)
    ensures n.Call? && n.fun.Selector? ==> ArgTainted(info, n.fun.x, With(f, b)) == ArgTainted(info, n.fun.x, f)
  {
    hide ExprTainted, ArgTainted, EngineAtoms, CatalogAtoms;
    forall e { SameTaint(info, e, f, b); }
    if n.Call? {
      forall i | 0 <= i < |n.args| ensures EngineAtoms(info, n.args[i]) + CatalogAtoms(info, n.args[i]) <= ReadAt(info, n) {}
    }
  }

  /** Tainting what nobody reads, and every missed parameter is among it, closes `n` under
      binding too and makes no sink call dangerous. */
  lemma WithKeepsAt(p: Program, info: Info, n: Node, sinks: set<Fn>, f: Facts, b: set<Obj>)
    requires UnreadAt(info, n, b) && MissedAt(p, info, n, f) <= b
    ensures CatalogClosed(p, info, n, f) ==> RuleClosed(p, info, n, With(f, b))
    ensures SinkAt(info, n, sinks, With(f, b)) ==> SinkAt(info, n, sinks, f)
  {
    SameTaintAt(info, n, f, b);
    hide ExprTainted, ArgTainted, ReadAt;
    if n.Call? {
      assert UserInput(p, info, n.fun, n.args, With(f, b)) == UserInput(p, info, n.fun, n.args, f);
    }
  }

  lemma {:induction false} WithKeepsBelow(p: Program, info: Info, n: Node, sinks: set<Fn>, f: Facts, b: set<Obj>)
    requires UnreadBelow(info, n, b) && MissedBelow(p, info, n, f) <= b
    ensures CatalogClosedBelow(p, info, n, f) ==> RuleClosedBelow(p, info, n, With(f, b))
    ensures SinkBelow(info, n, sinks, With(f, b)) ==> SinkBelow(info, n, sinks, f)
    decreases n
  {
    hide UnreadAt, MissedAt, CatalogClosed, RuleClosed, SinkAt;
    WithKeepsAt(p, info, n, sinks, f, b);
    forall i | 0 <= i < |Kids(n)|
      ensures CatalogClosedBelow(p, info, Kids(n)[i], f) ==> RuleClosedBelow(p, info, Kids(n)[i], With(f, b))
      ensures SinkBelow(info, Kids(n)[i], sinks, With(f, b)) ==> SinkBelow(info, Kids(n)[i], sinks, f)
    {
      assert Kids(n)[i] in Kids(n);
      WithKeepsBelow(p, info, Kids(n)[i], sinks, f, b);
    }
  }

  lemma {:induction false} MissedMono(p: Program, info: Info, n: Node, f: Facts, g: Facts)
    requires f.Within(g) && f.tainted == g.tainted
    ensures MissedBelow(p, info, n, f) <= MissedBelow(p, info, n, g) <= BoundBelow(p, info, n)
    decreases n
  {
    forall e | ExprTainted(info, e, f) { ExprTaintedMono(info, e, f, g); }
    forall i | 0 <= i < |Kids(n)|
      ensures MissedBelow(p, info, Kids(n)[i], f) <= MissedBelow(p, info, Kids(n)[i], g) <= BoundBelow(p, info, Kids(n)[i])
    {
      assert Kids(n)[i] in Kids(n);
      MissedMono(p, info, Kids(n)[i], f, g);
    }
  }

  lemma {:induction false} UnreadLess(info: Info, n: Node, a: set<Obj>, b: set<Obj>)
    requires a <= b && UnreadBelow(info, n, b)
    ensures UnreadBelow(info, n, a)
    decreases n
  {
    forall i | 0 <= i < |Kids(n)| ensures UnreadBelow(info, Kids(n)[i], a) {
      assert Kids(n)[i] in Kids(n);
      UnreadLess(info, Kids(n)[i], a, b);
    }
  }

  /** Facts closed under the catalogs that reach no sink refute the rules when nothing in
      `b`, which has all they miss, is read. */
  lemma UnreadRefutes(p: Program, src: Obj, sinks: set<Fn>, f: Facts, g: Facts, b: set<Obj>)
    requires src in f.tainted && AllCatalogClosed(p, f) && !SinkReached(p, sinks, f)
    requires f.Within(g) && f.tainted == g.tainted && Missed(p, g) <= b && Unread(p, b)
    ensures !RulesReach(p, src, sinks)
  {
    forall i | 0 <= i < |p.files|
      ensures RuleClosedBelow(p, p.files[i].info, p.files[i].root, With(f, b))
      ensures !SinkBelow(p.files[i].info, p.files[i].root, sinks, With(f, b))
    {
      MissedMono(p, p.files[i].info, p.files[i].root, f, g);
      assert MissedBelow(p, p.files[i].info, p.files[i].root, g) <= Missed(p, g);
      WithKeepsBelow(p, p.files[i].info, p.files[i].root, sinks, f, b);
    }
    assert src in With(f, b).tainted && AllRuleClosed(p, With(f, b)) && !SinkReached(p, sinks, With(f, b));
  }

  /** When no rule reads a parameter that binding missed, and more objects are tainted than
      outputs and keys, the answer is exact: positive if and only if every set closed under
      the rules that holds the source reaches a sink. */
  lemma ExactUnlessMissedIsRead(p: Program, src: Obj, sinks: set<Fn>)
    requires var t := Final(p, src, sinks).facts; Unread(p, Missed(p, t)) && |t.tainted| > |t.outputs| + |t.keys|
    ensures Final(p, src, sinks).hit <==> RulesReach(p, src, sinks)
  {
    FlowsToIsSound(p, src, sinks);
    if !Final(p, src, sinks).hit {
      var t := Final(p, src, sinks).facts;
      var f := PropagatorsAreComplete(p, src, sinks);
      UnreadRefutes(p, src, sinks, f, t, Missed(p, t));
    }
  }
}
