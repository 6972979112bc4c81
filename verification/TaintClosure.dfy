/** Declarative closures that bracket what the sweeping engine computes. */
module TaintClosure {
  import opened Options
  import opened TaintSyntax
  import opened TaintRules

  // ---------- closed fact sets ----------

  /** `c` is closed at `n` under assignment (R1), keyed composite literals (R2),
      recovery callbacks, body decoders and reverse-flow writes. */
  predicate FlowClosed(p: Program, info: Info, n: Node, c: Facts) {
    match n
    case Assign(lhs, rhs) => AnyTainted(info, rhs, c) ==> Targets(info, lhs) <= c.tainted
    case Composite(_, elts) =>
      forall i | 0 <= i < |elts| ::
        elts[i].KeyValue? && ExprTainted(info, elts[i].value, c) ==> KeyObject(info, elts[i].key) <= c.tainted
    case Call(fun, args) =>
      RecoveryVars(p, info, fun, args) <= c.tainted && UserInput(p, info, fun, args, c).tainted <= c.tainted
    case _ => true
  }

  /** Parameter binding (R3) at a call through a known, non-interface callee. */
  predicate BindClosed(p: Program, info: Info, fun: Node, args: seq<Node>, c: Facts) {
    Callee(info, fun).Some? && !p.Sig(Callee(info, fun).value).ifaceRecv ==>
      var params := p.Sig(Callee(info, fun).value).params;
      forall i | 0 <= i < |args| && i < |params| :: ExprTainted(info, args[i], c) ==> params[i] in c.tainted
  }

  /** Closed under every rule that can fire: flow, propagators and binding. */
  predicate RuleClosed(p: Program, info: Info, n: Node, c: Facts) {
    FlowClosed(p, info, n, c) &&
    (n.Call? ==> UserInput(p, info, n.fun, n.args, c).Within(c) && BindClosed(p, info, n.fun, n.args, c))
  }

  predicate SinkAt(info: Info, n: Node, sinks: set<Fn>, c: Facts) {
    n.Call? && SinkHit(info, n.fun, n.args, sinks, c)
  }

  predicate RuleClosedBelow(p: Program, info: Info, n: Node, c: Facts) {
    RuleClosed(p, info, n, c) && forall i | 0 <= i < |Kids(n)| :: RuleClosedBelow(p, info, Kids(n)[i], c)
  }

  predicate FlowClosedBelow(p: Program, info: Info, n: Node, c: Facts) {
    FlowClosed(p, info, n, c) && forall i | 0 <= i < |Kids(n)| :: FlowClosedBelow(p, info, Kids(n)[i], c)
  }

  predicate SinkBelow(info: Info, n: Node, sinks: set<Fn>, c: Facts) {
    SinkAt(info, n, sinks, c) || exists i | 0 <= i < |Kids(n)| :: SinkBelow(info, Kids(n)[i], sinks, c)
  }

  predicate AllRuleClosed(p: Program, c: Facts) {
    forall i | 0 <= i < |p.files| :: RuleClosedBelow(p, p.files[i].info, p.files[i].root, c)
  }

  predicate AllFlowClosed(p: Program, c: Facts) {
    forall i | 0 <= i < |p.files| :: FlowClosedBelow(p, p.files[i].info, p.files[i].root, c)
  }

  predicate SinkReached(p: Program, sinks: set<Fn>, c: Facts) {
    exists i | 0 <= i < |p.files| :: SinkBelow(p.files[i].info, p.files[i].root, sinks, c)
  }

  /** The least closure of `src` under the rules reaches a sink: every closed set
      that holds `src` does. */
  ghost predicate RulesReach(p: Program, src: Obj, sinks: set<Fn>) {
    forall c: Facts :: src in c.tainted && AllRuleClosed(p, c) ==> SinkReached(p, sinks, c)
  }

  ghost predicate FlowReaches(p: Program, src: Obj, sinks: set<Fn>) {
    forall c: Facts :: src in c.tainted && AllFlowClosed(p, c) ==> SinkReached(p, sinks, c)
  }

  // ---------- what every walk keeps ----------

  function InfoObjects(info: Info): set<Obj> {
    (set id | id in info.uses :: info.uses[id]) + (set id | id in info.defs :: info.defs[id]) +
    (set n, o | n in info.structFields && o in info.structFields[n] :: o)
  }

  /** The finitely many objects the rules can ever taint. */
  function Objects(p: Program): set<Obj> {
    (set i, o | 0 <= i < |p.files| && o in InfoObjects(p.files[i].info) :: o) +
    (set f, o | f in p.funcs && o in p.funcs[f].params :: o)
  }

  /** A source accessor, a forward propagator or a gin getter: the only functions
      whose results ever become tainted. */
  predicate InCatalog(p: Program, f: Fn) {
    p.Sig(f).source == Some(false) ||
    (p.Sig(f).passthrough.Some? && !p.Sig(f).passthrough.value.reverseFlow) ||
    p.Sig(f).gin == Some(GinGet)
  }

  predicate Bounded(p: Program, u: set<Obj>, s: State) {
    s.facts.tainted <= u &&
    (forall o :: o in s.depth ==> s.depth[o] <= MAX_DEPTH) &&
    (forall f :: f in s.facts.outputs ==> InCatalog(p, f))
  }

  lemma ExprTaintedMono(info: Info, n: Node, f: Facts, g: Facts)
    requires f.Within(g) && ExprTainted(info, n, f)
    ensures ExprTainted(info, n, g)
  {}

  lemma ArgTaintedMono(info: Info, n: Node, f: Facts, g: Facts)
    requires f.Within(g) && ArgTainted(info, n, f)
    ensures ArgTainted(info, n, g)
  {}

  lemma AnyTaintedMono(info: Info, ns: seq<Node>, f: Facts, g: Facts)
    requires f.Within(g)
    ensures AnyTainted(info, ns, f) ==> AnyTainted(info, ns, g)
    ensures AnyArgTainted(info, ns, f) ==> AnyArgTainted(info, ns, g)
  {
    forall i | 0 <= i < |ns| && ExprTainted(info, ns[i], f) { ExprTaintedMono(info, ns[i], f, g); }
    forall i | 0 <= i < |ns| && ArgTainted(info, ns[i], f) { ArgTaintedMono(info, ns[i], f, g); }
  }

  lemma UserInputMono(p: Program, info: Info, fun: Node, args: seq<Node>, f: Facts, g: Facts)
    requires f.Within(g)
    ensures UserInput(p, info, fun, args, f).Within(UserInput(p, info, fun, args, g))
  {
    AnyTaintedMono(info, args, f, g);
    AnyTaintedMono(info, ReverseSources(true, args), f, g);
    AnyTaintedMono(info, ReverseSources(false, args), f, g);
    forall n | ArgTainted(info, n, f) { ArgTaintedMono(info, n, f, g); }
  }
}
