/** The rules said over the type tables alone: which object each syntactic form reaches,
  and what both bounds of a query mean for the statements of a module. */
module TaintMeaning {
  import opened Options
  import opened TaintSyntax
  import opened TaintRules
  import opened TaintClosure
  import opened TaintQuery

  // ---------- the parts of a node ----------

  predicate PartOf(m: Node, n: Node) {
    match n
    case Ident(_) => false
    case StringLit(_) => false
    case Selector(_, x, _) => m == x
    case Unary(_, x) => m == x
    case Paren(x) => m == x
    case Star(x) => m == x
    case Index(x, index) => m == x || m == index
    case Binary(_, x, y) => m == x || m == y
    case KeyValue(key, value) => m == key || m == value
    case Composite(typ, elts) => m in typ || m in elts
    case Call(fun, args) => m == fun || m in args
    case Assign(lhs, rhs) => m in lhs || m in rhs
    case Return(results) => m in results
    case FuncDecl(_, _, rest) => m in rest
    case FuncLit(_, body) => m in body
    case Tree(parts) => m in parts
  }

  /** `m` is `n` or occurs somewhere inside it. */
  ghost predicate Under(m: Node, n: Node)
    decreases n
  {
    m == n || exists k: Node | PartOf(k, n) :: Under(m, k)
  }

  lemma KidsAreParts(n: Node, m: Node)
    ensures m in Kids(n) <==> PartOf(m, n)
  {}

  // ---------- the type tables ----------

  /** The object of an identifier: what it defines, else what it uses. */
  predicate Denotes(info: Info, id: Id, o: Obj) {
    (id in info.defs && info.defs[id] == o) || (id !in info.defs && id in info.uses && info.uses[id] == o)
  }

  /** The function a callee expression names: a method by its selection, else by use. */
  predicate Names(info: Info, fun: Node, fn: Fn) {
    (fun.Ident? && fun.id in info.uses && info.uses[fun.id] == Func(fn)) ||
    (fun.Selector? && fun.self in info.selections && info.selections[fun.self] == Func(fn)) ||
    (fun.Selector? && !(fun.self in info.selections && info.selections[fun.self].Func?) &&
     fun.sel in info.uses && info.uses[fun.sel] == Func(fn))
  }

  lemma CalleeIsNamed(info: Info, fun: Node, fn: Fn)
    ensures Callee(info, fun) == Some(fn) <==> Names(info, fun, fn)
  {}

  // ---------- reading ----------

  /** The engine looks from `n` into `m`; the propagators look into the operands of `+`
      where the engine looks into an indexed operand. */
  predicate LooksInto(engine: bool, n: Node, m: Node) {
    match n
    case Selector(_, x, _) => m == x
    case Unary(_, x) => m == x
    case Paren(x) => m == x
    case Star(x) => m == x
    case Index(x, _) => engine && m == x
    case Binary(add, x, y) => !engine && add && (m == x || m == y)
    case Composite(_, elts) => (m in elts && !m.KeyValue?) || exists e | e in elts :: e.KeyValue? && e.value == m
    case Call(_, args) => m in args
    case _ => false
  }

  /** An identifier or selector of a tainted object, or a call whose result is tainted. */
  predicate Carries(info: Info, n: Node, f: Facts) {
    (n.Ident? && exists o | o in f.tainted :: (n.id in info.uses && info.uses[n.id] == o) || (n.id in info.defs && info.defs[n.id] == o)) ||
    (n.Selector? && exists o | o in f.tainted ::
       (n.self in info.selections && info.selections[n.self] == o) || (n.sel in info.uses && info.uses[n.sel] == o)) ||
    (n.Call? && exists fn | fn in f.outputs :: Names(info, n.fun, fn))
  }

  ghost predicate Reads(engine: bool, info: Info, n: Node, f: Facts)
    decreases n
  {
    Carries(info, n, f) || exists m: Node | LooksInto(engine, n, m) :: Reads(engine, info, m, f)
  }

  /** Both readers find taint exactly where looking into operands ends at a carrier. */
  lemma {:induction false} ReadersAre(info: Info, n: Node, f: Facts)
    ensures ExprTainted(info, n, f) <==> Reads(true, info, n, f)
    ensures ArgTainted(info, n, f) <==> Reads(false, info, n, f)
    decreases n
  {
    forall m: Node | LooksInto(true, n, m) || LooksInto(false, n, m)
      ensures ExprTainted(info, m, f) <==> Reads(true, info, m, f)
      ensures ArgTainted(info, m, f) <==> Reads(false, info, m, f)
    {
      ReadersAre(info, m, f);
    }
  }

  // ---------- the rules ----------

  ghost predicate AnyReads(engine: bool, info: Info, es: seq<Node>, c: Facts) {
    exists e | e in es :: Reads(engine, info, e, c)
  }

  /** R1: a tainted right side taints what every identifier and every selected field on
      the left denotes. */
  ghost predicate Assigns(info: Info, lhs: seq<Node>, rhs: seq<Node>, c: Facts) {
    AnyReads(true, info, rhs, c) ==>
      forall l, o | l in lhs && ((l.Ident? && Denotes(info, l.id, o)) || (l.Selector? && Denotes(info, l.sel, o))) :: o in c.tainted
  }

  /** R2: a tainted value taints the field its identifier key denotes. */
  ghost predicate FillsFields(info: Info, elts: seq<Node>, c: Facts) {
    forall e, o | e in elts && e.KeyValue? && e.key.Ident? && Denotes(info, e.key.id, o) && Reads(true, info, e.value, c) ::
      o in c.tainted
  }

  /** A recovery callback's parameter: of the argument the row names, and for a variadic
      row of all arguments from there on. */
  ghost predicate Recovers(sig: Signature, info: Info, args: seq<Node>, c: Facts) {
    forall r, i, o: Obj |
      sig.recovery == Some(r) && r.arg <= i < |args| && (i == r.arg || r.variadic) && args[i].FuncLit? && r.param < |args[i].params| &&
      args[i].params[r.param] in info.defs && info.defs[args[i].params[r.param]] == o && o.Var? :: o in c.tainted
  }

  /** A body decoder fills every field of the struct its first argument is or points to. */
  ghost predicate Decodes(sig: Signature, info: Info, args: seq<Node>, c: Facts) {
    forall target: Node, o: Obj |
      sig.source == Some(true) && |args| > 0 && target == (if args[0].Unary? then args[0].x else args[0]) &&
      target in info.structFields && o in info.structFields[target] :: o in c.tainted
  }

  /** Parentheses aside, the destination is a variable or its address. */
  predicate WritesTo(info: Info, dst: Node, o: Obj) {
    o.Var? &&
    ((dst.Ident? && Denotes(info, dst.id, o)) ||
     (dst.Unary? && dst.addrOf && dst.x.Ident? && Denotes(info, dst.x.id, o)) ||
     (dst.Paren? && WritesTo(info, dst.x, o)))
  }

  predicate IsPropagator(sig: Signature, onReceiver: bool, reverse: bool) {
    sig.source.None? && sig.passthrough == Some(Passthrough(onReceiver, reverse))
  }

  /** Reverse flow: a method writes its tainted arguments to its receiver, a function its
      tainted second argument to its first. */
  ghost predicate WritesBack(sig: Signature, info: Info, fun: Node, args: seq<Node>, c: Facts) {
    (IsPropagator(sig, true, true) && fun.Selector? && AnyReads(false, info, args, c) ==>
       forall o | WritesTo(info, fun.x, o) :: o in c.tainted) &&
    (IsPropagator(sig, false, true) && |args| >= 2 && Reads(false, info, args[1], c) ==>
       forall o | WritesTo(info, args[0], o) :: o in c.tainted)
  }

  /** The result is tainted: an accessor, a propagator with a tainted operand, or a getter
      of a stored key. */
  ghost predicate Yields(sig: Signature, info: Info, fun: Node, args: seq<Node>, c: Facts) {
    sig.source == Some(false) ||
    (IsPropagator(sig, false, false) && AnyReads(false, info, args, c)) ||
    (IsPropagator(sig, true, false) && (AnyReads(false, info, args, c) || (fun.Selector? && Reads(false, info, fun.x, c)))) ||
    (sig.source.None? && sig.passthrough.None? && sig.gin == Some(GinGet) && |args| >= 1 && args[0].StringLit? && args[0].text in c.keys)
  }

  /** The call stores its tainted second argument under a literal key. */
  ghost predicate Stores(sig: Signature, info: Info, args: seq<Node>, c: Facts) {
    sig.source.None? && sig.passthrough.None? && sig.gin == Some(GinSet) && |args| >= 2 && args[0].StringLit? && Reads(false, info, args[1], c)
  }

  /** R3: a tainted argument taints its parameter, unless the receiver is an interface. */
  ghost predicate BindsParams(sig: Signature, info: Info, args: seq<Node>, c: Facts) {
    forall i | 0 <= i < |args| && i < |sig.params| && !sig.ifaceRecv && Reads(true, info, args[i], c) :: sig.params[i] in c.tainted
  }

  // ---------- the rules at a node ----------

  /** The flow rules, which a query applies to every node until nothing changes. */
  ghost predicate Flows(p: Program, info: Info, n: Node, c: Facts) {
    match n
    case Assign(lhs, rhs) => Assigns(info, lhs, rhs, c)
    case Composite(_, elts) => FillsFields(info, elts, c)
    case Call(fun, args) =>
      forall fn: Fn | Names(info, fun, fn) ::
        Recovers(p.Sig(fn), info, args, c) && Decodes(p.Sig(fn), info, args, c) && WritesBack(p.Sig(fn), info, fun, args, c)
    case _ => true
  }

  /** All rules that can fire. */
  ghost predicate Obeys(p: Program, info: Info, n: Node, c: Facts) {
    Flows(p, info, n, c) &&
    (n.Call? ==> forall fn: Fn | Names(info, n.fun, fn) ::
       (Yields(p.Sig(fn), info, n.fun, n.args, c) ==> fn in c.outputs) &&
       (Stores(p.Sig(fn), info, n.args, c) ==> n.args[0].text in c.keys) &&
       BindsParams(p.Sig(fn), info, n.args, c))
  }

  ghost predicate SinkCall(info: Info, n: Node, sinks: set<Fn>, c: Facts) {
    n.Call? && AnyReads(true, info, n.args, c) && exists fn | fn in sinks :: Names(info, n.fun, fn)
  }

  lemma AnyReadsAre(info: Info, es: seq<Node>, c: Facts)
    ensures AnyTainted(info, es, c) <==> AnyReads(true, info, es, c)
    ensures AnyArgTainted(info, es, c) <==> AnyReads(false, info, es, c)
  {
    forall e: Node { ReadersAre(info, e, c); }
    forall e | e in es ensures exists i | 0 <= i < |es| :: es[i] == e {}
  }

  lemma AssignsAre(info: Info, lhs: seq<Node>, rhs: seq<Node>, c: Facts)
    ensures (AnyTainted(info, rhs, c) ==> Targets(info, lhs) <= c.tainted) <==> Assigns(info, lhs, rhs, c)
  {
    AnyReadsAre(info, rhs, c);
    hide AnyTainted, AnyReads;
    forall l, o | l in lhs
      ensures o in Target(info, l) <==> (l.Ident? && Denotes(info, l.id, o)) || (l.Selector? && Denotes(info, l.sel, o))
    {}
    forall o ensures o in Targets(info, lhs) <==> exists l | l in lhs :: o in Target(info, l) {
      if l :| l in lhs && o in Target(info, l) {
        var i :| 0 <= i < |lhs| && lhs[i] == l;
      }
    }
  }

  lemma FieldsAre(p: Program, info: Info, typ: seq<Node>, elts: seq<Node>, c: Facts)
    ensures FlowClosed(p, info, Composite(typ, elts), c) <==> FillsFields(info, elts, c)
  {
    forall e: Node { ReadersAre(info, e, c); }
    hide ExprTainted, Reads;
  }

  lemma RecoversAre(p: Program, info: Info, fun: Node, args: seq<Node>, c: Facts, fn: Fn)
    requires Callee(info, fun) == Some(fn)
    ensures RecoveryVars(p, info, fun, args) <= c.tainted <==> Recovers(p.Sig(fn), info, args, c)
  {
    if p.Sig(fn).recovery.Some? {
      var r := p.Sig(fn).recovery.value;
      var cs := RecoveryArgs(r, args);
      if RecoveryVars(p, info, fun, args) <= c.tainted {
        forall i, o: Obj | r.arg <= i < |args| && (i == r.arg || r.variadic) && o in RecoveredVar(info, args[i], r.param)
          ensures o in c.tainted
        {
          assert cs[i - r.arg] == args[i];
        }
      }
      if Recovers(p.Sig(fn), info, args, c) {
        forall k, o | 0 <= k < |cs| && o in RecoveredVar(info, cs[k], r.param) ensures o in c.tainted {
          assert cs[k] == args[r.arg + k];
        }
      }
    }
  }

  lemma {:induction false} DestinationIs(info: Info, dst: Node, o: Obj)
    ensures o in DestVar(info, dst) <==> WritesTo(info, dst, o)
    decreases dst
  {
    if dst.Paren? { DestinationIs(info, dst.x, o); }
  }

  lemma WritesAre(p: Program, info: Info, fun: Node, args: seq<Node>, c: Facts, fn: Fn)
    requires Callee(info, fun) == Some(fn)
    ensures UserInput(p, info, fun, args, c).tainted <= c.tainted
       <==> Decodes(p.Sig(fn), info, args, c) && WritesBack(p.Sig(fn), info, fun, args, c)
  {
    AnyReadsAre(info, args, c);
    if |args| >= 2 {
      AnyReadsAre(info, [args[1]], c);
      assert [args[1]][0] == args[1];
      ReadersAre(info, args[1], c);
    }
    forall dst, o { DestinationIs(info, dst, o); }
    hide ExprTainted, ArgTainted, Reads, DestVar, WritesTo, AnyReads;
  }

  lemma ResultsAre(p: Program, info: Info, fun: Node, args: seq<Node>, c: Facts, fn: Fn)
    requires Callee(info, fun) == Some(fn)
    ensures UserInput(p, info, fun, args, c).outputs == if Yields(p.Sig(fn), info, fun, args, c) then {fn} else {}
    ensures UserInput(p, info, fun, args, c).keys == if Stores(p.Sig(fn), info, args, c) then {args[0].text} else {}
  {
    AnyReadsAre(info, args, c);
    if |args| >= 2 { ReadersAre(info, args[1], c); }
    if fun.Selector? { ReadersAre(info, fun.x, c); }
    hide ExprTainted, ArgTainted, Reads, AnyReads, AnyArgTainted;
  }

  /** The rules the two bounds are stated with are these rules. */
  lemma RulesAre(p: Program, info: Info, n: Node, sinks: set<Fn>, c: Facts)
    ensures FlowClosed(p, info, n, c) <==> Flows(p, info, n, c)
    ensures RuleClosed(p, info, n, c) <==> Obeys(p, info, n, c)
    ensures SinkAt(info, n, sinks, c) <==> SinkCall(info, n, sinks, c)
  {
    match n
    case Assign(lhs, rhs) => AssignsAre(info, lhs, rhs, c);
    case Composite(typ, elts) => FieldsAre(p, info, typ, elts, c);
    case Call(fun, args) =>
      forall fn: Fn ensures Callee(info, fun) == Some(fn) <==> Names(info, fun, fn) { CalleeIsNamed(info, fun, fn); }
      AnyReadsAre(info, args, c);
      if Callee(info, fun).Some? {
        var fn := Callee(info, fun).value;
        RecoversAre(p, info, fun, args, c, fn);
        WritesAre(p, info, fun, args, c, fn);
        ResultsAre(p, info, fun, args, c, fn);
        forall i | 0 <= i < |args| { ReadersAre(info, args[i], c); }
      }
      hide RecoveryVars, UserInput, Recovers, Decodes, WritesBack, Yields, Stores, ExprTainted, Reads, AnyTainted, AnyReads, Names, Callee;
    case _ =>
  }

  // ---------- what one rule does to the state ----------

  predicate AssignedTo(info: Info, lhs: seq<Node>, o: Obj) {
    exists l | l in lhs :: (l.Ident? && Denotes(info, l.id, o)) || (l.Selector? && Denotes(info, l.sel, o))
  }

  /** R1 as a step: exactly the objects assigned to become tainted, at depth 0, and that
      exactly when the right side is tainted. */
  lemma AssignStep(info: Info, lhs: seq<Node>, rhs: seq<Node>, s: State)
    ensures var t, fires := Rule1(info, lhs, rhs, s), AnyReads(true, info, rhs, s.facts);
      (forall o :: o in t.facts.tainted <==> o in s.facts.tainted || (fires && AssignedTo(info, lhs, o))) &&
      (forall o :: o in t.depth <==> o in s.depth || (fires && AssignedTo(info, lhs, o))) &&
      (forall o | o in t.depth :: t.depth[o] == if fires && AssignedTo(info, lhs, o) then 0 else s.depth[o])
  {
    AnyReadsAre(info, rhs, s.facts);
    hide AnyTainted, AnyReads;
    forall o ensures o in Targets(info, lhs) <==> AssignedTo(info, lhs, o) {
      if l :| l in lhs && ((l.Ident? && Denotes(info, l.id, o)) || (l.Selector? && Denotes(info, l.sel, o))) {
        var i :| 0 <= i < |lhs| && lhs[i] == l;
        assert o in Target(info, lhs[i]);
      }
    }
  }

  // ---------- whole modules ----------

  ghost predicate ObeysAll(p: Program, c: Facts) {
    forall k, n: Node | 0 <= k < |p.files| && Under(n, p.files[k].root) :: Obeys(p, p.files[k].info, n, c)
  }

  ghost predicate FlowsAll(p: Program, c: Facts) {
    forall k, n: Node | 0 <= k < |p.files| && Under(n, p.files[k].root) :: Flows(p, p.files[k].info, n, c)
  }

  /** Some statement of the module hands taint to a sink. */
  ghost predicate CallsSink(p: Program, sinks: set<Fn>, c: Facts) {
    exists k, n: Node | 0 <= k < |p.files| && Under(n, p.files[k].root) :: SinkCall(p.files[k].info, n, sinks, c)
  }

  lemma KidIsUnder(root: Node, k: Node, n: Node)
    requires k in Kids(root) && Under(n, k)
    ensures Under(n, root)
  {
    KidsAreParts(root, k);
    hide PartOf, Kids;
  }

  lemma UnderAKid(root: Node, n: Node) returns (i: nat)
    requires Under(n, root) && n != root
    ensures i < |Kids(root)| && Under(n, Kids(root)[i])
  {
    hide PartOf, Kids;
    var k: Node :| PartOf(k, root) && Under(n, k);
    KidsAreParts(root, k);
    hide Under;
    i :| 0 <= i < |Kids(root)| && Kids(root)[i] == k;
  }

  lemma RootIsUnder(root: Node)
    ensures Under(root, root)
  {}

  lemma UnderIs(root: Node, n: Node)
    ensures Under(n, root) <==> n == root || exists i | 0 <= i < |Kids(root)| :: Under(n, Kids(root)[i])
  {
    RootIsUnder(root);
    hide *;
    if Under(n, root) && n != root { var i := UnderAKid(root, n); }
    if i :| 0 <= i < |Kids(root)| && Under(n, Kids(root)[i]) { KidIsUnder(root, Kids(root)[i], n); }
  }

  lemma {:induction false} FlowsBelow(p: Program, info: Info, root: Node, c: Facts)
    ensures FlowClosedBelow(p, info, root, c) <==> forall n: Node | Under(n, root) :: Flows(p, info, n, c)
    decreases root
  {
    RulesAre(p, info, root, {}, c);
    forall n: Node { UnderIs(root, n); }
    hide Under, FlowClosed, Flows;
    forall i | 0 <= i < |Kids(root)|
      ensures FlowClosedBelow(p, info, Kids(root)[i], c) <==> forall n: Node | Under(n, Kids(root)[i]) :: Flows(p, info, n, c)
    {
      assert Kids(root)[i] in Kids(root);
      FlowsBelow(p, info, Kids(root)[i], c);
    }
  }

  lemma {:induction false} ObeysBelow(p: Program, info: Info, root: Node, c: Facts)
    ensures RuleClosedBelow(p, info, root, c) <==> forall n: Node | Under(n, root) :: Obeys(p, info, n, c)
    decreases root
  {
    RulesAre(p, info, root, {}, c);
    forall n: Node { UnderIs(root, n); }
    hide Under, RuleClosed, Obeys;
    forall i | 0 <= i < |Kids(root)|
      ensures RuleClosedBelow(p, info, Kids(root)[i], c) <==> forall n: Node | Under(n, Kids(root)[i]) :: Obeys(p, info, n, c)
    {
      assert Kids(root)[i] in Kids(root);
      ObeysBelow(p, info, Kids(root)[i], c);
    }
  }

  lemma {:induction false} SinksBelow(p: Program, info: Info, root: Node, sinks: set<Fn>, c: Facts)
    ensures SinkBelow(info, root, sinks, c) <==> exists n: Node | Under(n, root) :: SinkCall(info, n, sinks, c)
    decreases root
  {
    RulesAre(p, info, root, sinks, c);
    forall n: Node { UnderIs(root, n); }
    hide Under, SinkAt, SinkCall;
    forall i | 0 <= i < |Kids(root)|
      ensures SinkBelow(info, Kids(root)[i], sinks, c) <==> exists n: Node | Under(n, Kids(root)[i]) :: SinkCall(info, n, sinks, c)
    {
      assert Kids(root)[i] in Kids(root);
      SinksBelow(p, info, Kids(root)[i], sinks, c);
    }
  }

  lemma ClosedIsObeyed(p: Program, sinks: set<Fn>, c: Facts)
    ensures AllFlowClosed(p, c) <==> FlowsAll(p, c)
    ensures AllRuleClosed(p, c) <==> ObeysAll(p, c)
    ensures SinkReached(p, sinks, c) <==> CallsSink(p, sinks, c)
  {
    hide FlowClosedBelow, RuleClosedBelow, SinkBelow, Under, Flows, Obeys, SinkCall;
    forall k | 0 <= k < |p.files|
      ensures var i, r := p.files[k].info, p.files[k].root;
        (FlowClosedBelow(p, i, r, c) <==> forall n: Node | Under(n, r) :: Flows(p, i, n, c)) &&
        (RuleClosedBelow(p, i, r, c) <==> forall n: Node | Under(n, r) :: Obeys(p, i, n, c)) &&
        (SinkBelow(i, r, sinks, c) <==> exists n: Node | Under(n, r) :: SinkCall(i, n, sinks, c))
    {
      FlowsBelow(p, p.files[k].info, p.files[k].root, c);
      ObeysBelow(p, p.files[k].info, p.files[k].root, c);
      SinksBelow(p, p.files[k].info, p.files[k].root, sinks, c);
    }
  }

  /** A positive answer: in every set of facts that holds the source and obeys the rules
      some statement hands taint to a sink. */
  lemma PositiveMeans(p: Program, src: Obj, sinks: set<Fn>, c: Facts)
    requires Final(p, src, sinks).hit && src in c.tainted && ObeysAll(p, c)
    ensures CallsSink(p, sinks, c)
  {
    FlowsToIsSound(p, src, sinks);
    ClosedIsObeyed(p, sinks, c);
  }

  /** A negative answer: some facts with the tainted set of the query, and none outside its
      facts, hold the source and obey the flow rules at every statement, and no statement
      hands taint to a sink. */
  lemma NegativeMeans(p: Program, src: Obj, sinks: set<Fn>) returns (f: Facts)
    requires !Final(p, src, sinks).hit
    ensures src in f.tainted && f.tainted == Final(p, src, sinks).facts.tainted && f.Within(Final(p, src, sinks).facts)
    ensures FlowsAll(p, f) && !CallsSink(p, sinks, f)
  {
    FlowsToIsComplete(p, src, sinks);
    var last: State :| src in last.facts.tainted && SettlesFrom(p, sinks, last, Final(p, src, sinks));
    f := last.facts;
    ClosedIsObeyed(p, sinks, f);
  }

  /** The everyday case: when the tainted objects alone taint a right side, what its
      assignment's targets denote is tainted too, and such an argument reaches no sink. */
  lemma NegativeAssignment(p: Program, src: Obj, sinks: set<Fn>, k: nat, n: Node)
    requires !Final(p, src, sinks).hit && k < |p.files| && Under(n, p.files[k].root)
    ensures var t, info := Final(p, src, sinks).facts.tainted, p.files[k].info;
      (n.Assign? && AnyReads(true, info, n.rhs, Facts(t, {}, {})) ==> forall l, o | l in n.lhs &&
         ((l.Ident? && Denotes(info, l.id, o)) || (l.Selector? && Denotes(info, l.sel, o))) :: o in t) &&
      !SinkCall(info, n, sinks, Facts(t, {}, {}))
  {
    var f := NegativeMeans(p, src, sinks);
    var info, g := p.files[k].info, Facts(f.tainted, {}, {});
    forall e: Node | Reads(true, info, e, g) ensures Reads(true, info, e, f) {
      ReadersAre(info, e, g);
      ExprTaintedMono(info, e, g, f);
      ReadersAre(info, e, f);
    }
    assert Flows(p, info, n, f) && !SinkCall(info, n, sinks, f);
    hide Reads, Under, Final;
  }
}
