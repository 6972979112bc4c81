/** The query engine on mutable state: per-query maps updated in place by one
  recursive walk per file, driven by a worklist. Every method is tied to the
  function of TaintRules.dfy that says what it does to the state. */
module TaintEngine {
  import opened Options
  import opened TaintSyntax
  import opened TaintRules
  import opened TaintClosure
  import opened TaintWalk
  import opened TaintQuery
  import opened TaintMeaning

  lemma MarkTwice(s: State, a: set<Obj>, b: set<Obj>, d: nat)
    ensures Mark(Mark(s, a, d), b, d) == Mark(s, a + b, d)
  {
    assert (map o | o in a :: d) + (map o | o in b :: d) == map o | o in a + b :: d;
    assert s.facts.tainted + a + b == s.facts.tainted + (a + b);
    assert s.depth + (map o | o in a :: d) + (map o | o in b :: d) == s.depth + map o | o in a + b :: d;
  }

  lemma MarkNothing(s: State, d: nat)
    ensures Mark(s, {}, d) == s
  {
    assert s.facts.tainted + {} == s.facts.tainted;
  }

  /** The per-query state and the walk over one file. */
  class FlowState {
    const prog: Program
    const sinks: set<Fn>
    var tainted: set<Obj>
    var depth: map<Obj, nat>
    var visitedFuncs: set<Fn>
    var taintedReturns: set<Fn>
    var ginCtxKeys: set<string>
    var funcStack: seq<Option<Fn>>
    var hit: bool

    function Known(): Facts
      reads this
    {
      Facts(tainted, taintedReturns, ginCtxKeys)
    }

    ghost function View(): State
      reads this
    {
      State(Known(), depth, visitedFuncs, funcStack, hit)
    }

    constructor (prog: Program, sinks: set<Fn>, src: Obj)
      ensures this.prog == prog && this.sinks == sinks && View() == Start(src)
    {
      this.prog := prog;
      this.sinks := sinks;
      tainted, depth, visitedFuncs, taintedReturns := {src}, map[src := 0], {}, {};
      ginCtxKeys, funcStack, hit := {}, [], false;
    }

    method Taint(o: Obj, d: nat)
      modifies `tainted, `depth
      ensures View() == Mark(old(View()), {o}, d)
    {
      tainted := tainted + {o};
      depth := depth[o := d];
      ghost var singleton := {o};
      assert depth == old(depth) + map o' | o' in singleton :: d;
    }

    method TaintAll(os: set<Obj>, d: nat)
      modifies `tainted, `depth
      ensures View() == Mark(old(View()), os, d)
    {
      var left := os;
      MarkNothing(View(), d);
      assert os - left == {};
      while left != {}
        invariant left <= os
        invariant View() == Mark(old(View()), os - left, d)
      {
        var o :| o in left;
        MarkTwice(old(View()), os - left, {o}, d);
        assert os - (left - {o}) == os - left + {o};
        Taint(o, d);
        left := left - {o};
      }
      assert os - left == os;
    }

    method ApplyRule1(info: Info, lhs: seq<Node>, rhs: seq<Node>)
      modifies `tainted, `depth
      ensures View() == Rule1(info, lhs, rhs, old(View()))
    {
      var i := 0;
      while i < |rhs| && !ExprTainted(info, rhs[i], Known())
        invariant 0 <= i <= |rhs|
        invariant forall k | 0 <= k < i :: !ExprTainted(info, rhs[k], Known())
      {
        i := i + 1;
      }
      if i == |rhs| { return; }
      MarkNothing(View(), 0);
      assert Targets(info, lhs[..0]) == {};
      for j := 0 to |lhs|
        invariant View() == Mark(old(View()), Targets(info, lhs[..j]), 0)
      {
        TargetsSnoc(info, lhs, j);
        MarkTwice(old(View()), Targets(info, lhs[..j]), Target(info, lhs[j]), 0);
        TaintAll(Target(info, lhs[j]), 0);
      }
      assert lhs[..|lhs|] == lhs;
    }

    method ApplyRule2(info: Info, elts: seq<Node>)
      modifies `tainted, `depth
      ensures View() == Rule2(info, elts, old(View()))
    {
      for i := 0 to |elts|
        invariant Rule2(info, elts[i..], View()) == Rule2(info, elts, old(View()))
      {
        assert elts[i..][1..] == elts[i + 1..];
        if elts[i].KeyValue? && ExprTainted(info, elts[i].value, Known()) {
          TaintAll(KeyObject(info, elts[i].key), 0);
        }
      }
    }

    method CurrentDepth() returns (d: nat)
      ensures d == Deepest(depth)
    {
      var left := depth.Keys;
      d := 0;
      while left != {}
        invariant left <= depth.Keys
        invariant forall o :: o in depth && o !in left ==> depth[o] <= d
        invariant d == 0 || exists o :: o in depth && depth[o] == d
      {
        var o :| o in left;
        if depth[o] > d { d := depth[o]; }
        left := left - {o};
      }
    }

    method ApplyRule3(info: Info, fun: Node, args: seq<Node>)
      modifies `tainted, `depth, `visitedFuncs
      ensures View() == Rule3(prog, info, fun, args, old(View()))
    {
      var callee := Callee(info, fun);
      if callee.None? { return; }
      var sig := prog.Sig(callee.value);
      if sig.ifaceRecv || callee.value in visitedFuncs { return; }
      visitedFuncs := visitedFuncs + {callee.value};
      var d := CurrentDepth();
      d := d + 1;
      if d > MAX_DEPTH { return; }
      var i := 0;
      ghost var s1 := View();
      while i < |args| && i < |sig.params|
        invariant Bind(info, args, sig.params, i, d, View()) == Bind(info, args, sig.params, 0, d, s1)
      {
        if ExprTainted(info, args[i], Known()) { Taint(sig.params[i], d); }
        i := i + 1;
      }
    }

    /** The recovered-value parameters of gin recovery callbacks. */
    method SeedRecovery(info: Info, fun: Node, args: seq<Node>)
      modifies `tainted, `depth
      ensures View() == Mark(old(View()), RecoveryVars(prog, info, fun, args), 0)
    {
      MarkNothing(View(), 0);
      var callee := Callee(info, fun);
      if callee.None? || prog.Sig(callee.value).recovery.None? { return; }
      var r := prog.Sig(callee.value).recovery.value;
      var callbacks := RecoveryArgs(r, args);
      ghost var done: set<Obj> := {};
      for i := 0 to |callbacks|
        invariant done == set k, o | 0 <= k < i && o in RecoveredVar(info, callbacks[k], r.param) :: o
        invariant View() == Mark(old(View()), done, 0)
      {
        var vs := RecoveredVar(info, callbacks[i], r.param);
        MarkTwice(old(View()), done, vs, 0);
        TaintAll(vs, 0);
        done := done + vs;
      }
    }

    /** Sources first, then the propagator catalog, then gin keys. */
    method PropagateUserInputCall(info: Info, fun: Node, args: seq<Node>)
      modifies `tainted, `depth, `taintedReturns, `ginCtxKeys
      ensures View() == ApplyUserInput(prog, info, fun, args, old(View()))
    {
      var callee := Callee(info, fun);
      assert old(View()).facts.Join(NOTHING) == Known();
      if callee.None? { return; }
      var fn := callee.value;
      var sig := prog.Sig(fn);
      if sig.source.Some? {
        if sig.source.value {
          TaintAll(DecodedFields(info, args), 0);
          assert Known() == old(Known()).Join(Facts(DecodedFields(info, args), {}, {}));
        } else {
          taintedReturns := taintedReturns + {fn};
          assert Known() == old(Known()).Join(Facts({}, {fn}, {}));
        }
      } else if sig.passthrough.Some? {
        PropagateCatalog(info, fun, args, fn, sig.passthrough.value);
      } else {
        HandleGin(info, args, fn, sig.gin);
      }
    }

    method HandleGin(info: Info, args: seq<Node>, fn: Fn, gin: Option<GinRole>)
      modifies `taintedReturns, `ginCtxKeys
      ensures Known() == old(Known()).Join(GinContext(fn, gin, info, args, old(Known())))
    {
      assert Known().Join(NOTHING) == Known();
      if gin == Some(GinSet) {
        if |args| >= 2 && args[0].StringLit? && ArgTainted(info, args[1], Known()) {
          ginCtxKeys := ginCtxKeys + {args[0].text};
        }
      } else if gin == Some(GinGet) {
        if |args| >= 1 && args[0].StringLit? && args[0].text in ginCtxKeys {
          taintedReturns := taintedReturns + {fn};
        }
      }
    }

    method PropagateCatalog(info: Info, fun: Node, args: seq<Node>, fn: Fn, pass: Passthrough)
      modifies `tainted, `taintedReturns
      ensures Known() == old(Known()).Join(Propagate(info, fun, args, fn, pass, old(Known())))
    {
      assert Known().Join(NOTHING) == Known();
      if pass.reverseFlow {
        var dst := ReverseDest(pass.onReceiver, fun, args);
        var sources := ReverseSources(pass.onReceiver, args);
        for i := 0 to |sources|
          invariant Known() == old(Known())
          invariant forall k | 0 <= k < i :: !ArgTainted(info, sources[k], Known())
        {
          if ArgTainted(info, sources[i], Known()) {
            if dst.Some? { tainted := tainted + DestVar(info, dst.value); }
            assert AnyArgTainted(info, sources, old(Known()));
            return;
          }
        }
        return;
      }
      for i := 0 to |args|
        invariant Known() == old(Known())
        invariant forall k | 0 <= k < i :: !ArgTainted(info, args[k], Known())
      {
        if ArgTainted(info, args[i], Known()) {
          assert AnyArgTainted(info, args, old(Known()));
          taintedReturns := taintedReturns + {fn};
          return;
        }
      }
      if pass.onReceiver && fun.Selector? && ArgTainted(info, fun.x, Known()) {
        taintedReturns := taintedReturns + {fn};
      }
    }

    /** The callback on one node, before its subtree. */
    method EnterNode(info: Info, n: Node)
      requires !hit
      modifies this
      ensures View() == Enter(prog, sinks, info, n, old(View()))
    {
      match n {
        case Assign(lhs, rhs) => ApplyRule1(info, lhs, rhs);
        case Composite(_, elts) => ApplyRule2(info, elts);
        case Return(results) =>
          if |funcStack| > 0 {
            var top := funcStack[|funcStack| - 1];
            if top.Some? && AnyTainted(info, results, Known()) { taintedReturns := taintedReturns + {top.value}; }
          }
        case Call(fun, args) =>
          if SinkHit(info, fun, args, sinks, Known()) {
            hit := true;
            return;
          }
          SeedRecovery(info, fun, args);
          PropagateUserInputCall(info, fun, args);
          ApplyRule3(info, fun, args);
        case FuncDecl(_, name, _) =>
          funcStack := funcStack + [DeclaredFn(info, name)];
        case _ =>
      }
    }

    /** One node of the walk and everything below it. */
    method Inspect(info: Info, n: Node)
      modifies this
      ensures View() == Visit(prog, sinks, info, n, old(View()))
      decreases n
    {
      hide Enter, Pop, Kids, IdentsBefore, IdentsAfter;
      if hit { return; }
      EnterNode(info, n);
      if hit { return; }
      PopFrames(IdentsBefore(n));
      ghost var s := View();
      var kids := Kids(n);
      for i := 0 to |kids|
        invariant VisitKids(prog, sinks, info, n, i, View()) == VisitKids(prog, sinks, info, n, 0, s)
      {
        assert kids[i] in kids;
        Inspect(info, kids[i]);
      }
      PopFrames(IdentsAfter(n) + 1);
    }

    method PopFrames(k: nat)
      modifies `funcStack
      ensures View() == Pop(old(View()), k)
    {
      if hit { return; }
      funcStack := funcStack[..if k <= |funcStack| then |funcStack| - k else 0];
    }

    method PropagateInFile(f: File) returns (found: bool)
      modifies this
      ensures View() == Visit(prog, sinks, f.info, f.root, old(View()).(stack := []))
      ensures found == hit
    {
      funcStack := [];
      Inspect(f.info, f.root);
      found := hit;
    }
  }

  predicate NoDuplicates(ks: seq<Obj>) {
    forall i, j :: 0 <= i < j < |ks| ==> ks[i] != ks[j]
  }

  function Elements(ks: seq<Obj>): set<Obj> {
    set k | k in ks
  }

  lemma {:induction false} DistinctSize(ks: seq<Obj>)
    requires NoDuplicates(ks)
    ensures |Elements(ks)| == |ks|
  {
    if ks != [] {
      DistinctSize(ks[1..]);
      assert Elements(ks) == {ks[0]} + Elements(ks[1..]);
    }
  }

  lemma FirstRound(p: Program, src: Obj, sinks: set<Fn>)
    ensures var u := Universe(p, src);
      && Objects(p) <= u && Bounded(p, u, Start(src))
      && Final(p, src, sinks) == Drain(p, sinks, u, Start(src), 1)
    ensures NoDuplicates([src]) && Elements([src]) <= Start(src).facts.tainted
  {
  }

  lemma TailDistinct(ks: seq<Obj>)
    requires ks != [] && NoDuplicates(ks)
    ensures NoDuplicates(ks[1..]) && Elements(ks[1..]) <= Elements(ks)
  {
  }

  lemma DepthInBudget(p: Program, u: set<Obj>, s: State)
    requires Bounded(p, u, s)
    ensures forall o :: o in s.depth ==> s.depth[o] <= MAX_DEPTH
  {
  }

  lemma ShrinksStrictly(u: set<Obj>, a: set<Obj>, b: set<Obj>)
    requires a <= b <= u
    ensures a != b ==> |u - b| < |u - a|
  {
    SubsetSize(u - b, u - a);
    if a != b {
      var o :| o in b && o !in a;
      assert o in u - a && o !in u - b;
    }
  }

  lemma DrainEmpty(p: Program, sinks: set<Fn>, u: set<Obj>, s: State)
    requires Objects(p) <= u && Bounded(p, u, s) && !s.hit
    ensures Drain(p, sinks, u, s, 0) == s && SweepCount(p, sinks, u, s, 0) == 0
  {
  }

  /** One sweep, and what is left to drain after it. */
  lemma DrainOnce(p: Program, sinks: set<Fn>, u: set<Obj>, s: State, pending: nat)
    requires Bounded(p, u, s) && Objects(p) <= u && !s.hit && pending > 0
    ensures var t := Sweep(p, sinks, 0, s);
      && Bounded(p, u, t)
      && (t.hit ==> Drain(p, sinks, u, s, pending) == t && SweepCount(p, sinks, u, s, pending) == 1)
      && (!t.hit ==>
            var next := if t.facts.tainted == s.facts.tainted then pending - 1 else |t.facts.tainted|;
            && Drain(p, sinks, u, s, pending) == Drain(p, sinks, u, t, next)
            && SweepCount(p, sinks, u, s, pending) == 1 + SweepCount(p, sinks, u, t, next))
  {
    SweepKeeps(p, sinks, u, 0, s);
    hide Sweep, Objects, InCatalog;
  }

  lemma BothBounds(p: Program, src: Obj, sinks: set<Fn>)
    ensures Final(p, src, sinks).hit ==> forall c: Facts :: src in c.tainted && ObeysAll(p, c) ==> CallsSink(p, sinks, c)
    ensures !Final(p, src, sinks).hit ==> exists f: Facts :: src in f.tainted && FlowsAll(p, f) && !CallsSink(p, sinks, f)
  {
    hide Final, ObeysAll, FlowsAll, CallsSink;
    if Final(p, src, sinks).hit {
      forall c: Facts | src in c.tainted && ObeysAll(p, c) ensures CallsSink(p, sinks, c) { PositiveMeans(p, src, sinks, c); }
    } else {
      var f := NegativeMeans(p, src, sinks);
    }
  }

  /** A loaded module that answers flow queries. */
  class Engine {
    const program: Program
    const loaded: bool

    constructor (program: Program, loaded: bool)
      ensures this.program == program && this.loaded == loaded
    {
      this.program, this.loaded := program, loaded;
    }

    /** The tainted objects still within the depth budget, in whatever order the
        map yields them. */
    method Requeue(st: FlowState) returns (ks: seq<Obj>)
      requires forall o :: o in st.depth ==> st.depth[o] <= MAX_DEPTH
      ensures Elements(ks) == st.tainted
    {
      ks := [];
      var left := st.tainted;
      while left != {}
        invariant left <= st.tainted
        invariant Elements(ks) == st.tainted - left
      {
        var o :| o in left;
        if (if o in st.depth then st.depth[o] else 0) <= MAX_DEPTH {
          assert Elements(ks + [o]) == Elements(ks) + {o};
          ks := ks + [o];
        }
        left := left - {o};
      }
    }

    method DedupObjects(objs: seq<Obj>) returns (out: seq<Obj>)
      ensures NoDuplicates(out) && Elements(out) == Elements(objs)
      ensures NoDuplicates(objs) ==> out == objs
    {
      var seen: set<Obj> := {};
      out := [];
      for i := 0 to |objs|
        invariant NoDuplicates(out) && Elements(out) == seen == Elements(objs[..i])
        invariant NoDuplicates(objs[..i]) ==> out == objs[..i]
      {
        assert objs[..i + 1] == objs[..i] + [objs[i]];
        assert objs[i] in objs[..i] ==> !NoDuplicates(objs[..i + 1]);
        if objs[i] !in seen {
          seen := seen + {objs[i]};
          out := out + [objs[i]];
        }
      }
      assert objs[..|objs|] == objs;
    }

    /** One pass over the files, queueing after each file that tainted something. */
    method SweepFiles(st: FlowState, rest: seq<Obj>, ghost u: set<Obj>) returns (found: bool, worklist: seq<Obj>)
      requires st.prog == program && Objects(program) <= u && Bounded(program, u, st.View()) && !st.hit
      requires Elements(rest) <= st.tainted
      modifies st
      ensures st.View() == Sweep(program, st.sinks, 0, old(st.View())) && found == st.hit
      ensures Bounded(program, u, st.View()) && old(st.tainted) <= st.tainted
      ensures st.tainted == old(st.tainted) ==> worklist == rest
      ensures !found && st.tainted != old(st.tainted) ==> Elements(worklist) == st.tainted
    {
      hide Visit, Objects, InfoObjects;
      ghost var s0 := st.View();
      worklist := rest;
      for i := 0 to |program.files|
        invariant !st.hit && Bounded(program, u, st.View()) && s0.facts.tainted <= st.tainted
        invariant Sweep(program, st.sinks, i, st.View()) == Sweep(program, st.sinks, 0, s0)
        invariant st.tainted == s0.facts.tainted ==> worklist == rest
        invariant st.tainted != s0.facts.tainted ==> Elements(worklist) == st.tainted
      {
        var before := st.tainted;
        TargetsAreObjects(program, i);
        VisitKeeps(program, st.sinks, u, program.files[i].info, program.files[i].root, st.View().(stack := []));
        found := st.PropagateInFile(program.files[i]);
        if found { return; }
        SubsetSize(before, st.tainted);
        if |st.tainted| > |before| {
          var more := Requeue(st);
          assert Elements(worklist + more) == Elements(worklist) + Elements(more);
          worklist := worklist + more;
        }
      }
      found := false;
    }

    /** One iteration of the worklist loop after its object is taken off: a sweep, then
        the deduplicated queue, whose length is all that later sweeps depend on. */
    method SweepAndQueue(st: FlowState, rest: seq<Obj>, ghost u: set<Obj>) returns (found: bool, worklist: seq<Obj>)
      requires st.prog == program && Objects(program) <= u && Bounded(program, u, st.View()) && !st.hit
      requires NoDuplicates(rest) && Elements(rest) <= st.tainted
      modifies st
      ensures st.View() == Sweep(program, st.sinks, 0, old(st.View())) && found == st.hit
      ensures Bounded(program, u, st.View()) && old(st.tainted) <= st.tainted
      ensures !found ==> NoDuplicates(worklist) && Elements(worklist) <= st.tainted
      ensures st.tainted != old(st.tainted) ==> |u - st.tainted| < |u - old(st.tainted)|
      ensures !found ==> |worklist| == if st.tainted == old(st.tainted) then |rest| else |st.tainted|
    {
      ghost var t0 := st.tainted;
      found, worklist := SweepFiles(st, rest, u);
      ShrinksStrictly(u, t0, st.tainted);
      if found { return; }
      worklist := DedupObjects(worklist);
      DistinctSize(worklist);
    }

    /** One turn of the worklist loop: an object is taken off, skipped when its depth is
        over the limit, which never happens, and otherwise answered by a sweep. */
    method TakeOne(st: FlowState, worklist: seq<Obj>, ghost u: set<Obj>) returns (found: bool, next: seq<Obj>, ghost swept: nat)
      requires st.prog == program && Objects(program) <= u && Bounded(program, u, st.View()) && !st.hit
      requires |worklist| > 0 && NoDuplicates(worklist) && Elements(worklist) <= st.tainted
      modifies st
      ensures Bounded(program, u, st.View()) && found == st.hit
      ensures found ==> Drain(program, st.sinks, u, old(st.View()), |worklist|) == st.View()
      ensures found ==> SweepCount(program, st.sinks, u, old(st.View()), |worklist|) == swept
      ensures !found ==> NoDuplicates(next) && Elements(next) <= st.tainted
      ensures !found ==>
        Drain(program, st.sinks, u, old(st.View()), |worklist|) == Drain(program, st.sinks, u, st.View(), |next|)
      ensures !found ==>
        SweepCount(program, st.sinks, u, old(st.View()), |worklist|) == swept + SweepCount(program, st.sinks, u, st.View(), |next|)
      ensures !found ==> |u - st.tainted| < |u - old(st.tainted)| || (st.tainted == old(st.tainted) && |next| < |worklist|)
    {
      hide Sweep, Objects, Bounded, Drain, SweepCount, Elements, NoDuplicates;
      var obj := worklist[0];
      found, next, swept := false, worklist[1..], 0;
      TailDistinct(worklist);
      DepthInBudget(program, u, st.View());
      if (if obj in st.depth then st.depth[obj] else 0) > MAX_DEPTH {
        return;
      }
      DrainOnce(program, st.sinks, u, st.View(), |worklist|);
      found, next := SweepAndQueue(st, next, u);
      swept := 1;
    }

    /** `FlowsTo`. However map iteration orders the worklist, the answer and the
        number of sweeps are those of the order-free `Drain`. After a no, some facts obey
        the flow rules at every statement and reach no sink; after a yes, all facts that
        obey the rules do. */
    method FlowsTo(src: Option<Obj>, targets: set<Fn>) returns (flows: bool, ghost sweeps: nat)
      ensures flows <==> loaded && src.Some? && targets != {} && Final(program, src.value, targets).hit
      ensures loaded && src.Some? && targets != {} && !flows ==>
        exists f: Facts :: src.value in f.tainted && FlowsAll(program, f) && !CallsSink(program, targets, f)
      ensures flows ==> forall c: Facts :: src.value in c.tainted && ObeysAll(program, c) ==> CallsSink(program, targets, c)
      ensures loaded && src.Some? && targets != {} ==>
        sweeps == SweepCount(program, targets, Universe(program, src.value), Start(src.value), 1)
    {
      sweeps := 0;
      if !loaded || src.None? || targets == {} { return false, 0; }
      ghost var u := Universe(program, src.value);
      FirstRound(program, src.value, targets);
      hide Universe, Objects, Bounded, Drain, SweepCount, Final, Elements, NoDuplicates, FlowsAll, ObeysAll, CallsSink;
      var st := new FlowState(program, targets, src.value);
      var worklist := [src.value];
      while |worklist| > 0
        invariant fresh(st) && st.prog == program && st.sinks == targets
        invariant !st.hit && Bounded(program, u, st.View())
        invariant NoDuplicates(worklist) && Elements(worklist) <= st.tainted
        invariant Drain(program, targets, u, st.View(), |worklist|) == Final(program, src.value, targets)
        invariant sweeps + SweepCount(program, targets, u, st.View(), |worklist|)
               == SweepCount(program, targets, u, Start(src.value), 1)
        decreases |u - st.tainted|, |worklist|
      {
        ghost var swept: nat;
        var found;
        found, worklist, swept := TakeOne(st, worklist, u);
        sweeps := sweeps + swept;
        if found {
          BothBounds(program, src.value, targets);
          return true, sweeps;
        }
      }
      DrainEmpty(program, targets, u, st.View());
      BothBounds(program, src.value, targets);
      flows := false;
    }
  }

  lemma TargetsSnoc(info: Info, lhs: seq<Node>, i: nat)
    requires i < |lhs|
    ensures Targets(info, lhs[..i + 1]) == Targets(info, lhs[..i]) + Target(info, lhs[i])
  {
    forall o | o in Targets(info, lhs[..i + 1]) ensures o in Targets(info, lhs[..i]) + Target(info, lhs[i]) {
      var k :| 0 <= k < i + 1 && o in Target(info, lhs[..i + 1][k]);
      if k < i { assert lhs[..i][k] == lhs[k]; }
    }
    forall o | o in Targets(info, lhs[..i]) ensures o in Targets(info, lhs[..i + 1]) {
      var k :| 0 <= k < i && o in Target(info, lhs[..i][k]);
      assert lhs[..i + 1][k] == lhs[k];
    }
    assert lhs[..i + 1][i] == lhs[i];
  }
}
