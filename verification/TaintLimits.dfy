/** Where the engine falls short of its documented rules, on concrete modules. */
module TaintLimits {
  import opened Options
  import opened TaintSyntax
  import opened TaintRules
  import opened TaintClosure
  import opened TaintQuery

  // ---------- R4: `return x` marks the enclosing function ----------

  /** Some return statement below `n`, outside nested function literals, returns a
      tainted expression. */
  predicate ReturnsTainted(info: Info, n: Node, c: Facts) {
    (n.Return? && AnyTainted(info, n.results, c)) ||
    (!n.FuncLit? && exists i | 0 <= i < |Kids(n)| :: ReturnsTainted(info, Kids(n)[i], c))
  }

  /** The documented return rule at every function declaration below `n`. */
  predicate ReturnClosedBelow(info: Info, n: Node, c: Facts) {
    (n.FuncDecl? && DeclaredFn(info, n.name).Some? && ReturnsTainted(info, n, c) ==>
       DeclaredFn(info, n.name).value in c.outputs) &&
    forall i | 0 <= i < |Kids(n)| :: ReturnClosedBelow(info, Kids(n)[i], c)
  }

  predicate AllReturnClosed(p: Program, c: Facts) {
    forall i | 0 <= i < |p.files| :: ReturnClosedBelow(p.files[i].info, p.files[i].root, c)
  }

  /** The documented rules, returns included, reach a sink. */
  ghost predicate DocumentedReach(p: Program, src: Obj, sinks: set<Fn>) {
    forall c: Facts :: src in c.tainted && AllRuleClosed(p, c) && AllReturnClosed(p, c) ==> SinkReached(p, sinks, c)
  }

  function Plain(params: seq<Obj>): Signature {
    Signature(params, false, None, None, None, None)
  }

  lemma IdentIsQuiet(p: Program, info: Info, id: Id, sinks: set<Fn>, c: Facts)
    ensures RuleClosedBelow(p, info, Ident(id), c) && !SinkBelow(info, Ident(id), sinks, c)
  {}

  const RET_INFO := Info(map[0 := Var(0), 1 := Func(9), 2 := Func(1)], map[10 := Func(1)], map[], map[])
  const RET := Return([Ident(0)])
  const RET_DECL := FuncDecl([], 10, [RET])
  const RET_INNER := Call(Ident(2), [])
  const RET_CALL := Call(Ident(1), [RET_INNER])

  /** `func f() { return src }` and `sink(f())`. */
  const RETURN_EXAMPLE := Program([File(RET_INFO, Tree([RET_DECL, RET_CALL]))], map[1 := Plain([]), 9 := Plain([Var(90)])])

  lemma DeclarationIsClosed(c: Facts)
    requires c == Facts({Var(0)}, {}, {})
    ensures RuleClosedBelow(RETURN_EXAMPLE, RET_INFO, RET_DECL, c) && !SinkBelow(RET_INFO, RET_DECL, {9}, c)
  {
    var p := RETURN_EXAMPLE;
    IdentIsQuiet(p, RET_INFO, 0, {9}, c);
    assert Kids(RET) == [Ident(0)] && RuleClosedBelow(p, RET_INFO, RET, c) && !SinkBelow(RET_INFO, RET, {9}, c);
    assert Kids(RET_DECL) == [RET];
  }

  lemma InnerCallIsClosed(c: Facts)
    requires c == Facts({Var(0)}, {}, {})
    ensures RuleClosedBelow(RETURN_EXAMPLE, RET_INFO, RET_INNER, c) && !SinkBelow(RET_INFO, RET_INNER, {9}, c)
    ensures !ExprTainted(RET_INFO, RET_INNER, c)
  {
    IdentIsQuiet(RETURN_EXAMPLE, RET_INFO, 2, {9}, c);
    assert Kids(RET_INNER) == [Ident(2)] && Callee(RET_INFO, Ident(2)) == Some(1);
  }

  lemma SinkCallIsClosed(c: Facts)
    requires c == Facts({Var(0)}, {}, {})
    ensures RuleClosedBelow(RETURN_EXAMPLE, RET_INFO, RET_CALL, c) && !SinkBelow(RET_INFO, RET_CALL, {9}, c)
  {
    IdentIsQuiet(RETURN_EXAMPLE, RET_INFO, 1, {9}, c);
    InnerCallIsClosed(c);
    assert Kids(RET_CALL) == [Ident(1), RET_INNER] && Callee(RET_INFO, Ident(1)) == Some(9);
  }

  lemma SourceAloneIsClosed(c: Facts)
    requires c == Facts({Var(0)}, {}, {})
    ensures AllRuleClosed(RETURN_EXAMPLE, c) && !SinkReached(RETURN_EXAMPLE, {9}, c)
  {
    DeclarationIsClosed(c);
    SinkCallIsClosed(c);
    var root := Tree([RET_DECL, RET_CALL]);
    assert Kids(root) == [RET_DECL, RET_CALL];
    assert RuleClosedBelow(RETURN_EXAMPLE, RET_INFO, root, c) && !SinkBelow(RET_INFO, root, {9}, c);
  }

  /** The return rule is lost: the documented rules carry the source through `f`
      into the sink, the engine answers no. */
  lemma ReturnRuleIsLost()
    ensures !Final(RETURN_EXAMPLE, Var(0), {9}).hit
    ensures DocumentedReach(RETURN_EXAMPLE, Var(0), {9})
  {
    SourceAloneIsClosed(Facts({Var(0)}, {}, {}));
    FlowsToIsSound(RETURN_EXAMPLE, Var(0), {9});
    forall d: Facts | Var(0) in d.tainted && AllReturnClosed(RETURN_EXAMPLE, d)
      ensures SinkReached(RETURN_EXAMPLE, {9}, d)
    {
      DocumentedSink(d);
    }
  }

  lemma DocumentedSink(d: Facts)
    requires Var(0) in d.tainted && AllReturnClosed(RETURN_EXAMPLE, d)
    ensures SinkReached(RETURN_EXAMPLE, {9}, d)
  {
    var root := RETURN_EXAMPLE.files[0].root;
    assert ReturnClosedBelow(RET_INFO, Kids(root)[0], d);
    assert ExprTainted(RET_INFO, RET.results[0], d);
    assert ReturnsTainted(RET_INFO, Kids(RET_DECL)[0], d);
    assert 1 in d.outputs;
    assert ExprTainted(RET_INFO, RET_CALL.args[0], d);
    assert SinkBelow(RET_INFO, Kids(root)[1], {9}, d);
  }

  // ---------- R3: `f(x)` taints the parameter of f ----------

  const BIND_INFO := Info(map[0 := Var(0), 1 := Func(9), 2 := Func(1), 3 := Var(3), 4 := Var(5)], map[], map[], map[])
  const BIND_ROOT := Tree([Call(Ident(2), [Ident(3)]), Call(Ident(2), [Ident(0)]), Call(Ident(1), [Ident(4)])])

  /** `g(clean)`, then `g(src)`, then `sink(param)` for the parameter of `g`. */
  const BIND_EXAMPLE := Program([File(BIND_INFO, BIND_ROOT)], map[1 := Plain([Var(5)]), 9 := Plain([Var(90)])])

  lemma VisitIdent(p: Program, sinks: set<Fn>, info: Info, id: Id, s: State)
    requires !s.hit && s.stack == []
    ensures Visit(p, sinks, info, Ident(id), s) == s
  {}

  /** A call with one identifier argument: only the callback on the call counts. */
  lemma VisitCall1(p: Program, sinks: set<Fn>, info: Info, f: Id, a: Id, s: State, t: State)
    requires !s.hit && s.stack == [] && !t.hit && t.stack == []
    requires t == EnterCall(p, sinks, info, Ident(f), [Ident(a)], s)
    ensures Visit(p, sinks, info, Call(Ident(f), [Ident(a)]), s) == t
  {
    var n := Call(Ident(f), [Ident(a)]);
    assert Kids(n) == [Ident(f), Ident(a)];
    VisitIdent(p, sinks, info, f, t);
    VisitIdent(p, sinks, info, a, t);
    assert VisitKids(p, sinks, info, n, 2, t) == t;
    assert VisitKids(p, sinks, info, n, 1, t) == t;
    assert VisitKids(p, sinks, info, n, 0, t) == t;
  }

  /** A call of a function outside every catalog whose argument is clean, or that
      was called before, only marks the function visited. */
  lemma QuietCall(f: Id, a: Id, fn: Fn, s: State)
    requires Callee(BIND_INFO, Ident(f)) == Some(fn) && fn in BIND_EXAMPLE.funcs
    requires s.depth == map[Var(0) := 0] && !s.hit
    requires !ExprTainted(BIND_INFO, Ident(a), s.facts) || (fn in s.visited && fn != 9)
    ensures EnterCall(BIND_EXAMPLE, {9}, BIND_INFO, Ident(f), [Ident(a)], s) == s.(visited := s.visited + {fn})
  {
    var p := BIND_EXAMPLE;
    var none: set<Obj> := {};
    assert Mark(s, none, 0) == s by {
      assert s.facts.tainted + none == s.facts.tainted && s.depth + (map o | o in none :: 0) == s.depth;
    }
    assert RecoveryVars(p, BIND_INFO, Ident(f), [Ident(a)]) == none;
    assert ApplyUserInput(p, BIND_INFO, Ident(f), [Ident(a)], s) == s by { assert s.facts.Join(NOTHING) == s.facts; }
    if fn in s.visited {
      assert s.visited + {fn} == s.visited;
    } else {
      var s1 := s.(visited := s.visited + {fn});
      assert Deepest(s1.depth) == 0;
      assert Bind(BIND_INFO, [Ident(a)], p.Sig(fn).params, 1, 1, s1) == s1;
    }
  }

  /** A file of three quiet statements. */
  lemma VisitThree(p: Program, sinks: set<Fn>, info: Info, parts: seq<Node>, s: State, s1: State, s2: State, s3: State)
    requires |parts| == 3 && !s.hit && !s3.hit && s.stack == [] && s3.stack == []
    requires Visit(p, sinks, info, parts[0], s) == s1
    requires Visit(p, sinks, info, parts[1], s1) == s2
    requires Visit(p, sinks, info, parts[2], s2) == s3
    ensures Visit(p, sinks, info, Tree(parts), s) == s3
  {
    var root := Tree(parts);
    assert Kids(root) == parts;
    assert VisitKids(p, sinks, info, root, 3, s3) == s3;
    assert VisitKids(p, sinks, info, root, 2, s2) == s3;
    assert VisitKids(p, sinks, info, root, 1, s1) == s3;
    assert VisitKids(p, sinks, info, root, 0, s) == s3;
  }

  lemma QuietVisit(f: Id, a: Id, fn: Fn, s: State, t: State)
    requires Callee(BIND_INFO, Ident(f)) == Some(fn) && fn in BIND_EXAMPLE.funcs
    requires s.depth == map[Var(0) := 0] && !s.hit && s.stack == []
    requires !ExprTainted(BIND_INFO, Ident(a), s.facts) || (fn in s.visited && fn != 9)
    requires t == s.(visited := s.visited + {fn})
    ensures Visit(BIND_EXAMPLE, {9}, BIND_INFO, Call(Ident(f), [Ident(a)]), s) == t
  {
    QuietCall(f, a, fn, s);
    VisitCall1(BIND_EXAMPLE, {9}, BIND_INFO, f, a, s, t);
  }

  /** The three statements take the start state through `s1` twice to `s2`. */
  lemma BindExampleVisit(parts: seq<Node>, s: State, s1: State, s2: State)
    requires parts == [Call(Ident(2), [Ident(3)]), Call(Ident(2), [Ident(0)]), Call(Ident(1), [Ident(4)])]
    requires s == Start(Var(0)) && s1 == s.(visited := {1}) && s2 == s.(visited := {1, 9})
    ensures Visit(BIND_EXAMPLE, {9}, BIND_INFO, Tree(parts), s) == s2
  {
    FirstCall(parts[0], s, s1);
    SecondCall(parts[1], s1);
    SinkCall(parts[2], s1, s2);
    VisitThree(BIND_EXAMPLE, {9}, BIND_INFO, parts, s, s1, s1, s2);
  }

  lemma FirstCall(n: Node, s: State, s1: State)
    requires n == Call(Ident(2), [Ident(3)]) && s == Start(Var(0)) && s1 == s.(visited := {1})
    ensures Visit(BIND_EXAMPLE, {9}, BIND_INFO, n, s) == s1
  {
    assert s.visited + {1} == {1};
    QuietVisit(2, 3, 1, s, s1);
  }

  lemma SecondCall(n: Node, s1: State)
    requires n == Call(Ident(2), [Ident(0)]) && s1 == Start(Var(0)).(visited := {1})
    ensures Visit(BIND_EXAMPLE, {9}, BIND_INFO, n, s1) == s1
  {
    assert s1.visited + {1} == {1};
    QuietVisit(2, 0, 1, s1, s1);
  }

  lemma SinkCall(n: Node, s1: State, s2: State)
    requires n == Call(Ident(1), [Ident(4)]) && s1 == Start(Var(0)).(visited := {1}) && s2 == s1.(visited := {1, 9})
    ensures Visit(BIND_EXAMPLE, {9}, BIND_INFO, n, s1) == s2
  {
    assert s1.visited + {9} == {1, 9};
    QuietVisit(1, 4, 9, s1, s2);
  }

  /** A module of one file whose only sweep taints nothing and hits nothing. */
  lemma QuietOnce(p: Program, sinks: set<Fn>, src: Obj, t: State)
    requires |p.files| == 1 && t == Visit(p, sinks, p.files[0].info, p.files[0].root, Start(src))
    requires !t.hit && t.facts.tainted == {src}
    ensures Final(p, src, sinks) == t
  {
    var s := Start(src);
    assert s.(stack := []) == s;
    assert Sweep(p, sinks, 1, t) == t;
    assert Sweep(p, sinks, 0, s) == t;
    var u := Universe(p, src);
    SweepKeeps(p, sinks, u, 0, s);
    assert Drain(p, sinks, u, t, 0) == t;
  }

  /** The binding rule looks at a function's first call only, because the callee is
      marked visited before its arguments are read: the rules reach the sink, the
      engine answers no. */
  lemma {:induction false} BindingIsFirstCallOnly()
    ensures !Final(BIND_EXAMPLE, Var(0), {9}).hit
    ensures RulesReach(BIND_EXAMPLE, Var(0), {9})
  {
    var s := Start(Var(0));
    BindExampleVisit(BIND_ROOT.parts, s, s.(visited := {1}), s.(visited := {1, 9}));
    QuietOnce(BIND_EXAMPLE, {9}, Var(0), s.(visited := {1, 9}));
    forall d: Facts | Var(0) in d.tainted && AllRuleClosed(BIND_EXAMPLE, d)
      ensures SinkReached(BIND_EXAMPLE, {9}, d)
    {
      BoundSink(d);
    }
  }

  lemma BoundSink(d: Facts)
    requires Var(0) in d.tainted && AllRuleClosed(BIND_EXAMPLE, d)
    ensures SinkReached(BIND_EXAMPLE, {9}, d)
  {
    var bind, sink := BIND_ROOT.parts[1], BIND_ROOT.parts[2];
    assert BIND_EXAMPLE.files[0].root == BIND_ROOT && Kids(BIND_ROOT) == BIND_ROOT.parts;
    assert RuleClosedBelow(BIND_EXAMPLE, BIND_INFO, BIND_ROOT, d);
    assert RuleClosedBelow(BIND_EXAMPLE, BIND_INFO, Kids(BIND_ROOT)[1], d);
    assert BindClosed(BIND_EXAMPLE, BIND_INFO, bind.fun, bind.args, d);
    assert ExprTainted(BIND_INFO, bind.args[0], d);
    assert BIND_EXAMPLE.Sig(1).params[0] in d.tainted;
    assert ExprTainted(BIND_INFO, sink.args[0], d);
    assert SinkBelow(BIND_INFO, Kids(BIND_ROOT)[2], {9}, d);
  }

  // ---------- outputs alone do not requeue ----------

  const OUT_INFO := Info(map[0 := Var(0), 1 := Func(9), 2 := Func(1), 3 := Var(3)], map[], map[], map[])
  const OUT_INNER := Call(Ident(2), [Ident(3)])
  const OUT_SINK := Call(Ident(1), [OUT_INNER])
  const OUT_MARK := Call(Ident(2), [Ident(0)])
  const FORWARD := Signature([Var(91)], false, None, Some(Passthrough(false, false)), None, None)

  /** `sink(g(clean))` and then `g(src)` for a propagator `g`. */
  const OUTPUT_EXAMPLE := Program([File(OUT_INFO, Tree([OUT_SINK, OUT_MARK]))], map[1 := FORWARD, 9 := Plain([Var(90)])])

  lemma MarkNone(s: State)
    ensures Mark(s, {}, 0) == s && s.facts.Join(NOTHING) == s.facts
  {
    var none: set<Obj> := {};
    assert s.facts.tainted + none == s.facts.tainted && s.depth + (map o | o in none :: 0) == s.depth;
  }

  lemma {:induction false} BindClean(info: Info, args: seq<Node>, params: seq<Obj>, i: nat, d: nat, s: State)
    requires !AnyTainted(info, args, s.facts)
    ensures Bind(info, args, params, i, d, s) == s
    decreases |args| - i
  {
    if i < |args| && i < |params| { BindClean(info, args, params, i + 1, d, s); }
  }

  /** A call that binds nothing, because it is not the first or its arguments are clean,
      only adds what the catalog says. */
  lemma OutCall(f: Id, args: seq<Node>, fn: Fn, s: State)
    requires Callee(OUT_INFO, Ident(f)) == Some(fn) && fn in {1, 9} && !s.hit
    requires !SinkHit(OUT_INFO, Ident(f), args, {9}, s.facts)
    requires fn in s.visited || (!AnyTainted(OUT_INFO, args, s.facts) && !AnyArgTainted(OUT_INFO, args, s.facts))
    ensures EnterCall(OUTPUT_EXAMPLE, {9}, OUT_INFO, Ident(f), args, s)
         == s.(facts := s.facts.(outputs := s.facts.outputs +
                 if fn == 1 && AnyArgTainted(OUT_INFO, args, s.facts) then {1} else {}), visited := s.visited + {fn})
  {
    var p := OUTPUT_EXAMPLE;
    MarkNone(s);
    assert RecoveryVars(p, OUT_INFO, Ident(f), args) == {};
    var s2 := ApplyUserInput(p, OUT_INFO, Ident(f), args, s);
    assert s2.facts == s.facts.(outputs := s.facts.outputs + if fn == 1 && AnyArgTainted(OUT_INFO, args, s.facts) then {1} else {});
    if fn in s2.visited {
      assert s2.visited + {fn} == s2.visited;
    } else {
      assert s2.facts == s.facts;
      var s3 := s2.(visited := s2.visited + {fn});
      BindClean(OUT_INFO, args, p.Sig(fn).params, 0, Deepest(s3.depth) + 1, s3);
    }
  }

  /** A node with two kids: the callback on it, then the two walks. */
  lemma VisitTwo(p: Program, sinks: set<Fn>, info: Info, n: Node, s: State, s1: State, s2: State, t: State)
    requires |Kids(n)| == 2 && IdentsBefore(n) == 0 && !s.hit
    requires Enter(p, sinks, info, n, s) == s1 && !s1.hit && s1.stack == []
    requires Visit(p, sinks, info, Kids(n)[0], s1) == s2
    requires Visit(p, sinks, info, Kids(n)[1], s2) == t && !t.hit && t.stack == []
    ensures Visit(p, sinks, info, n, s) == t
  {
    assert Pop(s1, 0) == s1 && Pop(t, IdentsAfter(n) + 1) == t;
    hide Enter, Pop;
    assert VisitKids(p, sinks, info, n, 2, t) == t;
    assert VisitKids(p, sinks, info, n, 1, s2) == t;
    assert VisitKids(p, sinks, info, n, 0, s1) == t;
  }

  lemma OutSinkEnter(s: State, m: State)
    requires s == Start(Var(0)) && m == s.(visited := {9})
    ensures Enter(OUTPUT_EXAMPLE, {9}, OUT_INFO, OUT_SINK, s) == m
  {
    assert !ExprTainted(OUT_INFO, Ident(3), s.facts);
    assert OUT_SINK.args == [OUT_INNER] && !ExprTainted(OUT_INFO, OUT_INNER, s.facts);
    OutCall(1, [OUT_INNER], 9, s);
    assert s.visited + {9} == {9} && s.facts.outputs + {} == s.facts.outputs;
  }

  lemma OutInnerVisit(m: State, s1: State)
    requires m == Start(Var(0)).(visited := {9}) && s1 == m.(visited := {1, 9})
    ensures Visit(OUTPUT_EXAMPLE, {9}, OUT_INFO, OUT_INNER, m) == s1
  {
    assert !ArgTainted(OUT_INFO, [Ident(3)][0], m.facts);
    OutCall(2, [Ident(3)], 1, m);
    assert m.visited + {1} == {1, 9} && m.facts.outputs + {} == m.facts.outputs;
    VisitCall1(OUTPUT_EXAMPLE, {9}, OUT_INFO, 2, 3, m, s1);
  }

  lemma OutSinkVisit(s: State, s1: State)
    requires s == Start(Var(0)) && s1 == s.(visited := {1, 9})
    ensures Visit(OUTPUT_EXAMPLE, {9}, OUT_INFO, OUT_SINK, s) == s1
  {
    var m := s.(visited := {9});
    OutSinkEnter(s, m);
    OutInnerVisit(m, s1);
    VisitIdent(OUTPUT_EXAMPLE, {9}, OUT_INFO, 1, m);
    assert Kids(OUT_SINK) == [Ident(1), OUT_INNER];
    hide Visit, Enter;
    VisitTwo(OUTPUT_EXAMPLE, {9}, OUT_INFO, OUT_SINK, s, m, m, s1);
  }

  lemma OutMarkVisit(s1: State, t: State)
    requires s1 == Start(Var(0)).(visited := {1, 9}) && t == s1.(facts := Facts({Var(0)}, {1}, {}))
    ensures Visit(OUTPUT_EXAMPLE, {9}, OUT_INFO, OUT_MARK, s1) == t
  {
    assert ArgTainted(OUT_INFO, [Ident(0)][0], s1.facts);
    OutCall(2, [Ident(0)], 1, s1);
    assert s1.visited + {1} == s1.visited && s1.facts.outputs + {1} == {1};
    VisitCall1(OUTPUT_EXAMPLE, {9}, OUT_INFO, 2, 0, s1, t);
  }

  lemma OutSink(d: Facts)
    requires Var(0) in d.tainted && AllRuleClosed(OUTPUT_EXAMPLE, d)
    ensures SinkReached(OUTPUT_EXAMPLE, {9}, d)
  {
    var root := OUTPUT_EXAMPLE.files[0].root;
    assert Kids(root) == [OUT_SINK, OUT_MARK];
    assert RuleClosedBelow(OUTPUT_EXAMPLE, OUT_INFO, Kids(root)[1], d);
    assert ArgTainted(OUT_INFO, OUT_MARK.args[0], d);
    assert AnyArgTainted(OUT_INFO, OUT_MARK.args, d);
    assert 1 in UserInput(OUTPUT_EXAMPLE, OUT_INFO, OUT_MARK.fun, OUT_MARK.args, d).outputs;
    assert 1 in d.outputs;
    assert ExprTainted(OUT_INFO, OUT_SINK.args[0], d);
    assert SinkBelow(OUT_INFO, Kids(root)[0], {9}, d);
  }

  /** A file of two quiet statements. */
  lemma VisitPair(p: Program, sinks: set<Fn>, info: Info, parts: seq<Node>, s: State, s1: State, t: State)
    requires |parts| == 2 && !s.hit && !t.hit && s.stack == [] && t.stack == []
    requires Visit(p, sinks, info, parts[0], s) == s1 && Visit(p, sinks, info, parts[1], s1) == t
    ensures Visit(p, sinks, info, Tree(parts), s) == t
  {
    assert Kids(Tree(parts)) == parts;
    hide Visit;
    VisitTwo(p, sinks, info, Tree(parts), s, s, s1, t);
  }

  lemma OutRootVisit(parts: seq<Node>, s: State, t: State)
    requires |parts| == 2 && parts[0] == OUT_SINK && parts[1] == OUT_MARK
    requires s == Start(Var(0)) && t == s.(visited := {1, 9}, facts := Facts({Var(0)}, {1}, {}))
    ensures Visit(OUTPUT_EXAMPLE, {9}, OUT_INFO, Tree(parts), s) == t
  {
    assert !s.hit && !t.hit && s.stack == [] && t.stack == [];
    var s1 := s.(visited := {1, 9});
    OutSinkVisit(s, s1);
    OutMarkVisit(s1, t);
    hide *;
    VisitPair(OUTPUT_EXAMPLE, {9}, OUT_INFO, parts, s, s1, t);
  }

  lemma OutFinal(s: State, t: State)
    requires s == Start(Var(0)) && t == s.(visited := {1, 9}, facts := Facts({Var(0)}, {1}, {}))
    ensures Final(OUTPUT_EXAMPLE, Var(0), {9}) == t
  {
    hide Visit, Final;
    OutRootVisit([OUT_SINK, OUT_MARK], s, t);
    QuietOnce(OUTPUT_EXAMPLE, {9}, Var(0), t);
  }

  /** A new output alone does not requeue anything: one object and one output, the rules
      reach the sink, the engine answers no. So the count in TaintExact.dfy cannot be one
      smaller. */
  lemma OutputsDoNotRequeue()
    ensures !Final(OUTPUT_EXAMPLE, Var(0), {9}).hit
    ensures Final(OUTPUT_EXAMPLE, Var(0), {9}).facts == Facts({Var(0)}, {1}, {})
    ensures RulesReach(OUTPUT_EXAMPLE, Var(0), {9})
  {
    hide Final, SinkReached, AllRuleClosed;
    var s := Start(Var(0));
    OutFinal(s, s.(visited := {1, 9}, facts := Facts({Var(0)}, {1}, {})));
    forall d: Facts | Var(0) in d.tainted && AllRuleClosed(OUTPUT_EXAMPLE, d) ensures SinkReached(OUTPUT_EXAMPLE, {9}, d) {
      OutSink(d);
    }
  }
}
