/** The taint rules of one query, as functions from state to state.

  `Visit` is what one `ast.Inspect` walk does to the query state; `Sweep` is one
  pass over every file; `Drain` repeats sweeps until the worklist is empty.
  TaintEngine.dfy runs the same rules step by step on mutable state. */
module TaintRules {
  import opened Options
  import opened TaintSyntax

  const MAX_DEPTH: nat := 5

  /** Everything the rules look at: tainted objects, functions whose result is
      tainted, and tainted gin context keys. */
  datatype Facts = Facts(tainted: set<Obj>, outputs: set<Fn>, keys: set<string>)
  {
    predicate Within(g: Facts) {
      tainted <= g.tainted && outputs <= g.outputs && keys <= g.keys
    }

    function Join(g: Facts): (r: Facts) {
      Facts(tainted + g.tainted, outputs + g.outputs, keys + g.keys)
    }
  }

  const NOTHING: Facts := Facts({}, {}, {})

  /** `stack` is the enclosing-function stack of the current walk; `None` is an
      unresolved function name. */
  datatype State = State(facts: Facts, depth: map<Obj, nat>, visited: set<Fn>, stack: seq<Option<Fn>>, hit: bool)

  // ---------- reading expressions ----------

  /** The object an identifier uses or defines is tainted. */
  predicate IdTainted(info: Info, id: Id, t: set<Obj>) {
    (id in info.uses && info.uses[id] in t) || (id in info.defs && info.defs[id] in t)
  }

  predicate SelectorTainted(info: Info, self: Id, sel: Id, t: set<Obj>) {
    (self in info.selections && info.selections[self] in t) || (sel in info.uses && info.uses[sel] in t)
  }

  function Callee(info: Info, fun: Node): Option<Fn> {
    match fun
    case Selector(self, _, sel) =>
      if self in info.selections && info.selections[self].Func? then Some(info.selections[self].f)
      else if sel in info.uses && info.uses[sel].Func? then Some(info.uses[sel].f)
      else None
    case Ident(id) => if id in info.uses && info.uses[id].Func? then Some(info.uses[id].f) else None
    case _ => None
  }

  predicate CallReturnsTaint(info: Info, fun: Node, f: Facts) {
    Callee(info, fun).Some? && Callee(info, fun).value in f.outputs
  }

  /** `isExprTainted`: no case for binary expressions. */
  predicate ExprTainted(info: Info, n: Node, f: Facts) {
    match n
    case Ident(id) => IdTainted(info, id, f.tainted)
    case Selector(self, x, sel) => SelectorTainted(info, self, sel, f.tainted) || ExprTainted(info, x, f)
    case Unary(_, x) => ExprTainted(info, x, f)
    case Paren(x) => ExprTainted(info, x, f)
    case Star(x) => ExprTainted(info, x, f)
    case Index(x, _) => ExprTainted(info, x, f)
    case Composite(_, elts) =>
      exists i | 0 <= i < |elts| ::
        if elts[i].KeyValue? then ExprTainted(info, elts[i].value, f) else ExprTainted(info, elts[i], f)
    case Call(fun, args) =>
      CallReturnsTaint(info, fun, f) || exists i | 0 <= i < |args| :: ExprTainted(info, args[i], f)
    case _ => false
  }

  /** `isArgTainted`, the propagators' own reader: no case for index
      expressions, but concatenation is looked into. */
  predicate ArgTainted(info: Info, n: Node, f: Facts) {
    match n
    case Ident(id) => IdTainted(info, id, f.tainted)
    case Selector(self, x, sel) => SelectorTainted(info, self, sel, f.tainted) || ArgTainted(info, x, f)
    case Unary(_, x) => ArgTainted(info, x, f)
    case Paren(x) => ArgTainted(info, x, f)
    case Star(x) => ArgTainted(info, x, f)
    case Binary(add, x, y) => add && (ArgTainted(info, x, f) || ArgTainted(info, y, f))
    case Composite(_, elts) =>
      exists i | 0 <= i < |elts| ::
        if elts[i].KeyValue? then ArgTainted(info, elts[i].value, f) else ArgTainted(info, elts[i], f)
    case Call(fun, args) =>
      CallReturnsTaint(info, fun, f) || exists i | 0 <= i < |args| :: ArgTainted(info, args[i], f)
    case _ => false
  }

  predicate AnyTainted(info: Info, ns: seq<Node>, f: Facts) {
    exists i | 0 <= i < |ns| :: ExprTainted(info, ns[i], f)
  }

  predicate AnyArgTainted(info: Info, ns: seq<Node>, f: Facts) {
    exists i | 0 <= i < |ns| :: ArgTainted(info, ns[i], f)
  }

  // ---------- what a node can taint ----------

  function AsSet(o: Option<Obj>): set<Obj> {
    if o.Some? then {o.value} else {}
  }

  /** R1: the object an assignment target names. */
  function Target(info: Info, n: Node): set<Obj> {
    match n
    case Ident(id) => AsSet(info.ObjectOf(id))
    case Selector(_, _, sel) => AsSet(info.ObjectOf(sel))
    case _ => {}
  }

  function Targets(info: Info, lhs: seq<Node>): set<Obj> {
    set i, o | 0 <= i < |lhs| && o in Target(info, lhs[i]) :: o
  }

  /** R2: the struct field a keyed element names. */
  function KeyObject(info: Info, key: Node): set<Obj> {
    if key.Ident? then AsSet(info.ObjectOf(key.id)) else {}
  }

  /** The variable bound to the recovered value in one callback literal. */
  function RecoveredVar(info: Info, a: Node, param: nat): set<Obj> {
    if a.FuncLit? && param < |a.params| && a.params[param] in info.defs && info.defs[a.params[param]].Var?
    then {info.defs[a.params[param]]} else {}
  }

  function RecoveryArgs(r: Recovery, args: seq<Node>): seq<Node> {
    if r.arg >= |args| then [] else if r.variadic then args[r.arg..] else [args[r.arg]]
  }

  function RecoveryVars(p: Program, info: Info, fun: Node, args: seq<Node>): set<Obj> {
    match Callee(info, fun)
    case None => {}
    case Some(fn) =>
      match p.Sig(fn).recovery
      case None => {}
      case Some(r) =>
        var cs := RecoveryArgs(r, args);
        set i, o | 0 <= i < |cs| && o in RecoveredVar(info, cs[i], r.param) :: o
  }

  /** The fields a body decoder fills. */
  function DecodedFields(info: Info, args: seq<Node>): set<Obj> {
    if |args| == 0 then {}
    else
      var a := if args[0].Unary? then args[0].x else args[0];
      if a in info.structFields then set o | o in info.structFields[a] else {}
  }

  /** The variable a reverse-flow destination expression denotes. */
  function DestVar(info: Info, dst: Node): set<Obj> {
    match dst
    case Ident(id) => set o | o in AsSet(info.ObjectOf(id)) && o.Var?
    case Unary(addrOf, x) =>
      if addrOf && x.Ident? then set o | o in AsSet(info.ObjectOf(x.id)) && o.Var? else {}
    case Paren(x) => DestVar(info, x)
    case _ => {}
  }

  function ReverseDest(onReceiver: bool, fun: Node, args: seq<Node>): Option<Node> {
    if onReceiver then if fun.Selector? then Some(fun.x) else None
    else if |args| >= 1 then Some(args[0]) else None
  }

  function ReverseSources(onReceiver: bool, args: seq<Node>): seq<Node> {
    if onReceiver then args else if |args| >= 2 then [args[1]] else []
  }

  /** What a user-input call adds: a source accessor or body decoder first, then
      the propagator catalog, then gin context keys. */
  function UserInput(p: Program, info: Info, fun: Node, args: seq<Node>, f: Facts): Facts {
    match Callee(info, fun)
    case None => NOTHING
    case Some(fn) =>
      var sig := p.Sig(fn);
      match sig.source
      case Some(decoder) =>
        if decoder then Facts(DecodedFields(info, args), {}, {}) else Facts({}, {fn}, {})
      case None =>
        match sig.passthrough
        case Some(pass) => Propagate(info, fun, args, fn, pass, f)
        case None => GinContext(fn, sig.gin, info, args, f)
  }

  function Propagate(info: Info, fun: Node, args: seq<Node>, fn: Fn, pass: Passthrough, f: Facts): Facts {
    if pass.reverseFlow then
      var dst := ReverseDest(pass.onReceiver, fun, args);
      if dst.Some? && AnyArgTainted(info, ReverseSources(pass.onReceiver, args), f)
      then Facts(DestVar(info, dst.value), {}, {}) else NOTHING
    else if AnyArgTainted(info, args, f) || (pass.onReceiver && fun.Selector? && ArgTainted(info, fun.x, f))
    then Facts({}, {fn}, {})
    else NOTHING
  }

  function GinContext(fn: Fn, gin: Option<GinRole>, info: Info, args: seq<Node>, f: Facts): Facts {
    match gin
    case None => NOTHING
    case Some(GinSet) =>
      if |args| >= 2 && args[0].StringLit? && ArgTainted(info, args[1], f) then Facts({}, {}, {args[0].text}) else NOTHING
    case Some(GinGet) =>
      if |args| >= 1 && args[0].StringLit? && args[0].text in f.keys then Facts({}, {fn}, {}) else NOTHING
  }

  // ---------- state changes ----------

  /** Taint `objs` and set their call depth. */
  ghost function Mark(s: State, objs: set<Obj>, d: nat): State {
    s.(facts := s.facts.(tainted := s.facts.tainted + objs), depth := s.depth + map o | o in objs :: d)
  }

  ghost function Rule1(info: Info, lhs: seq<Node>, rhs: seq<Node>, s: State): State {
    if AnyTainted(info, rhs, s.facts) then Mark(s, Targets(info, lhs), 0) else s
  }

  /** R2 element by element: a field tainted by one element is already tainted
      when the next one is read. */
  ghost function Rule2(info: Info, elts: seq<Node>, s: State): State {
    if elts == [] then s
    else Rule2(info, elts[1..],
               if elts[0].KeyValue? && ExprTainted(info, elts[0].value, s.facts)
               then Mark(s, KeyObject(info, elts[0].key), 0) else s)
  }

  /** The largest depth in use, 0 when there is none. */
  ghost function Deepest(depth: map<Obj, nat>): (d: nat)
    ensures forall o :: o in depth ==> depth[o] <= d
    ensures d == 0 || exists o :: o in depth && depth[o] == d
  {
    if depth == map[] then 0
    else
      var o :| o in depth;
      var d := Deepest(depth - {o});
      assert forall o' :: o' in depth ==> o' == o || o' in depth - {o};
      if depth[o] > d then depth[o] else d
  }

  /** R3 argument by argument, from argument `i` on. */
  ghost function Bind(info: Info, args: seq<Node>, params: seq<Obj>, i: nat, d: nat, s: State): State
    decreases |args| - i
  {
    if i >= |args| || i >= |params| then s
    else Bind(info, args, params, i + 1, d, if ExprTainted(info, args[i], s.facts) then Mark(s, {params[i]}, d) else s)
  }

  ghost function Rule3(p: Program, info: Info, fun: Node, args: seq<Node>, s: State): State {
    match Callee(info, fun)
    case None => s
    case Some(fn) =>
      if p.Sig(fn).ifaceRecv || fn in s.visited then s
      else
        var s1 := s.(visited := s.visited + {fn});
        if Deepest(s1.depth) + 1 > MAX_DEPTH then s1
        else Bind(info, args, p.Sig(fn).params, 0, Deepest(s1.depth) + 1, s1)
  }

  /** The catalog's additions; only decoded fields get a depth. */
  ghost function ApplyUserInput(p: Program, info: Info, fun: Node, args: seq<Node>, s: State): State {
    var add := UserInput(p, info, fun, args, s.facts);
    var decoder := Callee(info, fun).Some? && p.Sig(Callee(info, fun).value).source == Some(true);
    s.(facts := s.facts.Join(add), depth := if decoder then s.depth + map o | o in add.tainted :: 0 else s.depth)
  }

  predicate SinkHit(info: Info, fun: Node, args: seq<Node>, sinks: set<Fn>, f: Facts) {
    Callee(info, fun).Some? && Callee(info, fun).value in sinks && AnyTainted(info, args, f)
  }

  ghost function EnterCall(p: Program, sinks: set<Fn>, info: Info, fun: Node, args: seq<Node>, s: State): State {
    if SinkHit(info, fun, args, sinks, s.facts) then s.(hit := true)
    else Rule3(p, info, fun, args, ApplyUserInput(p, info, fun, args, Mark(s, RecoveryVars(p, info, fun, args), 0)))
  }

  function DeclaredFn(info: Info, name: Id): Option<Fn> {
    if name in info.defs && info.defs[name].Func? then Some(info.defs[name].f) else None
  }

  ghost function EnterReturn(info: Info, results: seq<Node>, s: State): State {
    if s.stack != [] && s.stack[|s.stack| - 1].Some? && AnyTainted(info, results, s.facts)
    then s.(facts := s.facts.(outputs := s.facts.outputs + {s.stack[|s.stack| - 1].value})) else s
  }

  ghost function Enter(p: Program, sinks: set<Fn>, info: Info, n: Node, s: State): State {
    match n
    case Assign(lhs, rhs) => Rule1(info, lhs, rhs, s)
    case Composite(_, elts) => Rule2(info, elts, s)
    case Return(results) => EnterReturn(info, results, s)
    case Call(fun, args) => EnterCall(p, sinks, info, fun, args, s)
    case FuncDecl(_, name, _) => s.(stack := s.stack + [DeclaredFn(info, name)])
    case _ => s
  }

  /** `k` nil callbacks: each pops the function stack, unless a sink was hit. */
  ghost function Pop(s: State, k: nat): State {
    if s.hit then s else s.(stack := s.stack[..if k <= |s.stack| then |s.stack| - k else 0])
  }

  ghost function Visit(p: Program, sinks: set<Fn>, info: Info, n: Node, s: State): State
    decreases n
  {
    if s.hit then s
    else
      var s1 := Enter(p, sinks, info, n, s);
      if s1.hit then s1
      else Pop(VisitKids(p, sinks, info, n, 0, Pop(s1, IdentsBefore(n))), IdentsAfter(n) + 1)
  }

  /** The kids of `n` from number `i` on. */
  ghost function VisitKids(p: Program, sinks: set<Fn>, info: Info, n: Node, i: nat, s: State): State
    requires i <= |Kids(n)|
    decreases n, |Kids(n)| - i
  {
    if i == |Kids(n)| then s
    else VisitKids(p, sinks, info, n, i + 1, Visit(p, sinks, info, Kids(n)[i], s))
  }

  /** One pass over the files from number `i` on; each walk starts with an empty
      function stack and a hit ends the pass. */
  ghost function Sweep(p: Program, sinks: set<Fn>, i: nat, s: State): State
    requires i <= |p.files|
    decreases |p.files| - i
  {
    if i == |p.files| || s.hit then s
    else Sweep(p, sinks, i + 1, Visit(p, sinks, p.files[i].info, p.files[i].root, s.(stack := [])))
  }

  ghost function Start(src: Obj): State {
    State(Facts({src}, {}, {}), map[src := 0], {}, [], false)
  }
}
