/** What one walk of a file does to the query state. */
module TaintWalk {
  import opened TaintSyntax
  import opened TaintRules
  import opened TaintClosure

  /** `t` has every fact of `s`. */
  ghost predicate Grows(s: State, t: State) {
    s.facts.Within(t.facts)
  }

  // ---------- one callback ----------

  lemma TargetsAreObjects(p: Program, k: nat)
    requires k < |p.files|
    ensures InfoObjects(p.files[k].info) <= Objects(p)
  {}

  lemma {:induction false} Rule2Keeps(p: Program, u: set<Obj>, info: Info, elts: seq<Node>, s: State)
    requires Bounded(p, u, s) && InfoObjects(info) <= u
    ensures var t := Rule2(info, elts, s);
      Bounded(p, u, t) && Grows(s, t) && t.stack == s.stack && t.hit == s.hit
    decreases |elts|
  {
    if elts != [] {
      var s1 := if elts[0].KeyValue? && ExprTainted(info, elts[0].value, s.facts)
                then Mark(s, KeyObject(info, elts[0].key), 0) else s;
      Rule2Keeps(p, u, info, elts[1..], s1);
    }
  }

  lemma {:induction false} BindKeeps(p: Program, u: set<Obj>, info: Info, args: seq<Node>, params: seq<Obj>, i: nat, d: nat, s: State)
    requires Bounded(p, u, s) && d <= MAX_DEPTH && forall o :: o in params ==> o in u
    ensures var t := Bind(info, args, params, i, d, s);
      Bounded(p, u, t) && Grows(s, t) && t.stack == s.stack && t.hit == s.hit
    decreases |args| - i
  {
    if i < |args| && i < |params| {
      var s1 := if ExprTainted(info, args[i], s.facts) then Mark(s, {params[i]}, d) else s;
      BindKeeps(p, u, info, args, params, i + 1, d, s1);
    }
  }

  lemma Rule3Keeps(p: Program, u: set<Obj>, info: Info, fun: Node, args: seq<Node>, s: State)
    requires Bounded(p, u, s) && Objects(p) <= u
    ensures var t := Rule3(p, info, fun, args, s);
      Bounded(p, u, t) && Grows(s, t) && t.stack == s.stack && t.hit == s.hit
  {
    if Callee(info, fun).Some? {
      var fn := Callee(info, fun).value;
      forall o | o in p.Sig(fn).params ensures o in u { assert fn in p.funcs; }
      var s1 := s.(visited := s.visited + {fn});
      if Deepest(s1.depth) + 1 <= MAX_DEPTH {
        BindKeeps(p, u, info, args, p.Sig(fn).params, 0, Deepest(s1.depth) + 1, s1);
      }
    }
  }

  lemma UserInputKeeps(p: Program, u: set<Obj>, info: Info, fun: Node, args: seq<Node>, s: State)
    requires Bounded(p, u, s) && InfoObjects(info) <= u
    ensures var t := ApplyUserInput(p, info, fun, args, s);
      Bounded(p, u, t) && Grows(s, t) && t.stack == s.stack && t.hit == s.hit
  {
    var add := UserInput(p, info, fun, args, s.facts);
    forall dst: Node ensures DestVar(info, dst) <= u { DestVarIsObject(info, dst); }
    assert DecodedFields(info, args) <= u;
    assert add.tainted <= u;
  }

  lemma DestVarIsObject(info: Info, dst: Node)
    ensures DestVar(info, dst) <= InfoObjects(info)
  {}

  lemma EnterKeeps(p: Program, sinks: set<Fn>, u: set<Obj>, info: Info, n: Node, s: State)
    requires Bounded(p, u, s) && Objects(p) <= u && InfoObjects(info) <= u && s.stack == [] && !s.hit
    ensures var t := Enter(p, sinks, info, n, s);
      Bounded(p, u, t) && Grows(s, t) && |t.stack| <= IdentsBefore(n)
  {
    match n
    case Assign(lhs, rhs) => assert Targets(info, lhs) <= u;
    case Composite(_, elts) => Rule2Keeps(p, u, info, elts, s);
    case Call(fun, args) => EnterCallKeeps(p, sinks, u, info, fun, args, s);
    case _ =>
  }

  lemma EnterCallKeeps(p: Program, sinks: set<Fn>, u: set<Obj>, info: Info, fun: Node, args: seq<Node>, s: State)
    requires Bounded(p, u, s) && Objects(p) <= u && InfoObjects(info) <= u && s.stack == [] && !s.hit
    ensures var t := EnterCall(p, sinks, info, fun, args, s);
      Bounded(p, u, t) && Grows(s, t) && t.stack == []
  {
    if !SinkHit(info, fun, args, sinks, s.facts) {
      assert RecoveryVars(p, info, fun, args) <= u;
      hide RecoveryVars, ApplyUserInput, Rule3, Objects, InfoObjects;
      var s1 := Mark(s, RecoveryVars(p, info, fun, args), 0);
      UserInputKeeps(p, u, info, fun, args, s1);
      Rule3Keeps(p, u, info, fun, args, ApplyUserInput(p, info, fun, args, s1));
    }
  }

  // ---------- a whole walk ----------

  /** Every walk only adds facts, keeps them inside the module's objects and the
      catalog's functions, keeps every depth within MAX_DEPTH, and, because the
      name of a function declaration already pops the entry pushed for it, runs
      with an empty function stack. */
  lemma {:induction false} VisitKeeps(p: Program, sinks: set<Fn>, u: set<Obj>, info: Info, n: Node, s: State)
    requires Bounded(p, u, s) && Objects(p) <= u && InfoObjects(info) <= u && s.stack == []
    ensures var t := Visit(p, sinks, info, n, s); Bounded(p, u, t) && Grows(s, t) && (t.hit || t.stack == [])
    decreases n
  {
    if !s.hit {
      EnterKeeps(p, sinks, u, info, n, s);
      var s1 := Enter(p, sinks, info, n, s);
      if !s1.hit { KidsKeep(p, sinks, u, info, n, 0, Pop(s1, IdentsBefore(n))); }
    }
  }

  lemma {:induction false} KidsKeep(p: Program, sinks: set<Fn>, u: set<Obj>, info: Info, n: Node, i: nat, s: State)
    requires i <= |Kids(n)|
    requires Bounded(p, u, s) && Objects(p) <= u && InfoObjects(info) <= u && (s.hit || s.stack == [])
    ensures var t := VisitKids(p, sinks, info, n, i, s); Bounded(p, u, t) && Grows(s, t) && (t.hit || t.stack == [])
    decreases n, |Kids(n)| - i
  {
    if i < |Kids(n)| {
      assert s.hit ==> Visit(p, sinks, info, Kids(n)[i], s) == s;
      hide Visit, InfoObjects, Objects;
      if !s.hit { VisitKeeps(p, sinks, u, info, Kids(n)[i], s); }
      KidsKeep(p, sinks, u, info, n, i + 1, Visit(p, sinks, info, Kids(n)[i], s));
    }
  }

  // ---------- upper bound: a walk stays inside every closed set ----------

  lemma {:induction false} Rule2Sound(info: Info, elts: seq<Node>, s: State, c: Facts)
    requires s.facts.Within(c)
    requires forall i | 0 <= i < |elts| ::
      elts[i].KeyValue? && ExprTainted(info, elts[i].value, c) ==> KeyObject(info, elts[i].key) <= c.tainted
    ensures Rule2(info, elts, s).facts.Within(c)
    decreases |elts|
  {
    if elts != [] {
      if elts[0].KeyValue? && ExprTainted(info, elts[0].value, s.facts) {
        ExprTaintedMono(info, elts[0].value, s.facts, c);
        Rule2Sound(info, elts[1..], Mark(s, KeyObject(info, elts[0].key), 0), c);
      } else {
        Rule2Sound(info, elts[1..], s, c);
      }
    }
  }

  lemma {:induction false} BindSound(info: Info, args: seq<Node>, params: seq<Obj>, i: nat, d: nat, s: State, c: Facts)
    requires s.facts.Within(c)
    requires forall j | 0 <= j < |args| && j < |params| :: ExprTainted(info, args[j], c) ==> params[j] in c.tainted
    ensures Bind(info, args, params, i, d, s).facts.Within(c)
    decreases |args| - i
  {
    if i < |args| && i < |params| {
      if ExprTainted(info, args[i], s.facts) { ExprTaintedMono(info, args[i], s.facts, c); }
      BindSound(info, args, params, i + 1, d, if ExprTainted(info, args[i], s.facts) then Mark(s, {params[i]}, d) else s, c);
    }
  }

  lemma EnterSound(p: Program, sinks: set<Fn>, info: Info, n: Node, s: State, c: Facts)
    requires RuleClosed(p, info, n, c) && s.facts.Within(c) && s.stack == [] && !s.hit
    ensures var t := Enter(p, sinks, info, n, s); t.facts.Within(c) && (t.hit ==> SinkAt(info, n, sinks, c))
  {
    match n
    case Assign(lhs, rhs) => AnyTaintedMono(info, rhs, s.facts, c);
    case Composite(_, elts) =>
      Rule2Sound(info, elts, s, c);
      Rule2Quiet(info, elts, s);
    case Call(fun, args) =>
      AnyTaintedMono(info, args, s.facts, c);
      if !SinkHit(info, fun, args, sinks, s.facts) {
        var s1 := Mark(s, RecoveryVars(p, info, fun, args), 0);
        UserInputMono(p, info, fun, args, s1.facts, c);
        hide UserInput, RecoveryVars, Rule3;
        Rule3Sound(p, info, fun, args, ApplyUserInput(p, info, fun, args, s1), c);
      }
    case _ =>
  }

  lemma Rule3Sound(p: Program, info: Info, fun: Node, args: seq<Node>, s: State, c: Facts)
    requires BindClosed(p, info, fun, args, c) && s.facts.Within(c)
    ensures var t := Rule3(p, info, fun, args, s); t.facts.Within(c) && t.hit == s.hit
  {
    if Callee(info, fun).Some? && !p.Sig(Callee(info, fun).value).ifaceRecv {
      var fn := Callee(info, fun).value;
      var s1 := s.(visited := s.visited + {fn});
      BindSound(info, args, p.Sig(fn).params, 0, Deepest(s1.depth) + 1, s1, c);
      BindQuiet(info, args, p.Sig(fn).params, 0, Deepest(s1.depth) + 1, s1);
    }
  }

  lemma Rule2Quiet(info: Info, elts: seq<Node>, s: State)
    ensures Rule2(info, elts, s).hit == s.hit && Rule2(info, elts, s).stack == s.stack
  {}

  lemma BindQuiet(info: Info, args: seq<Node>, params: seq<Obj>, i: nat, d: nat, s: State)
    ensures var t := Bind(info, args, params, i, d, s); t.hit == s.hit && t.stack == s.stack
    decreases |args| - i
  {}

  /** A walk that starts inside a closed set ends inside it, and a hit is a sink
      call with an argument tainted under that set. */
  lemma {:induction false} VisitSound(p: Program, sinks: set<Fn>, u: set<Obj>, info: Info, n: Node, s: State, c: Facts)
    requires Bounded(p, u, s) && Objects(p) <= u && InfoObjects(info) <= u && s.stack == [] && !s.hit
    requires RuleClosedBelow(p, info, n, c) && s.facts.Within(c)
    ensures var t := Visit(p, sinks, info, n, s); t.facts.Within(c) && (t.hit ==> SinkBelow(info, n, sinks, c))
    decreases n
  {
    EnterKeeps(p, sinks, u, info, n, s);
    EnterSound(p, sinks, info, n, s, c);
    var s1 := Enter(p, sinks, info, n, s);
    if !s1.hit { KidsSound(p, sinks, u, info, n, 0, Pop(s1, IdentsBefore(n)), c); }
  }

  lemma {:induction false} KidsSound(p: Program, sinks: set<Fn>, u: set<Obj>, info: Info, n: Node, i: nat, s: State, c: Facts)
    requires i <= |Kids(n)|
    requires Bounded(p, u, s) && Objects(p) <= u && InfoObjects(info) <= u && s.stack == [] && !s.hit
    requires RuleClosedBelow(p, info, n, c) && s.facts.Within(c)
    ensures var t := VisitKids(p, sinks, info, n, i, s); t.facts.Within(c) && (t.hit ==> SinkBelow(info, n, sinks, c))
    decreases n, |Kids(n)| - i
  {
    hide Visit, InfoObjects, Objects;
    if i < |Kids(n)| {
      var k := Kids(n)[i];
      VisitKeeps(p, sinks, u, info, k, s);
      VisitSound(p, sinks, u, info, k, s, c);
      var s1 := Visit(p, sinks, info, k, s);
      if s1.hit { HitStays(p, sinks, info, n, i + 1, s1); }
      else { KidsSound(p, sinks, u, info, n, i + 1, s1, c); }
    }
  }

  /** After a hit the rest of the walk does nothing. */
  lemma HitStays(p: Program, sinks: set<Fn>, info: Info, n: Node, i: nat, s: State)
    requires i <= |Kids(n)| && s.hit
    ensures VisitKids(p, sinks, info, n, i, s) == s
    decreases |Kids(n)| - i
  {
    if i < |Kids(n)| { HitStays(p, sinks, info, n, i + 1, s); }
  }

  // ---------- lower bound: a walk that taints nothing new is closed ----------

  lemma {:induction false} Rule2Closed(info: Info, elts: seq<Node>, s: State, f: Facts)
    requires f.Within(s.facts) && Rule2(info, elts, s).facts.tainted == f.tainted
    ensures forall i | 0 <= i < |elts| ::
      elts[i].KeyValue? && ExprTainted(info, elts[i].value, f) ==> KeyObject(info, elts[i].key) <= f.tainted
    decreases |elts|
  {
    if elts != [] {
      var s1 := if elts[0].KeyValue? && ExprTainted(info, elts[0].value, s.facts)
                then Mark(s, KeyObject(info, elts[0].key), 0) else s;
      Rule2Grows(info, elts[1..], s1);
      Rule2Closed(info, elts[1..], s1, f);
      forall i | 0 <= i < |elts| && elts[i].KeyValue? && ExprTainted(info, elts[i].value, f)
        ensures KeyObject(info, elts[i].key) <= f.tainted
      {
        if i == 0 { ExprTaintedMono(info, elts[0].value, f, s.facts); } else { assert elts[i] == elts[1..][i - 1]; }
      }
    }
  }

  lemma Rule2Grows(info: Info, elts: seq<Node>, s: State)
    ensures Grows(s, Rule2(info, elts, s))
  {}

  lemma EnterClosed(p: Program, sinks: set<Fn>, u: set<Obj>, info: Info, n: Node, s: State, f: Facts)
    requires Bounded(p, u, s) && Objects(p) <= u && InfoObjects(info) <= u && s.stack == [] && !s.hit
    requires f.Within(s.facts)
    requires var t := Enter(p, sinks, info, n, s); !t.hit && t.facts.tainted == f.tainted
    ensures FlowClosed(p, info, n, f) && !SinkAt(info, n, sinks, f)
  {
    match n
    case Assign(lhs, rhs) => AnyTaintedMono(info, rhs, f, s.facts);
    case Composite(_, elts) => Rule2Closed(info, elts, s, f);
    case Call(fun, args) =>
      AnyTaintedMono(info, args, f, s.facts);
      var s1 := Mark(s, RecoveryVars(p, info, fun, args), 0);
      var s2 := ApplyUserInput(p, info, fun, args, s1);
      UserInputKeeps(p, u, info, fun, args, s1) by { assert RecoveryVars(p, info, fun, args) <= u; }
      Rule3Keeps(p, u, info, fun, args, s2);
      UserInputMono(p, info, fun, args, f, s1.facts);
    case _ =>
  }

  /** A hit-free walk that ends with the tainted set it started from proves that
      set closed under every flow rule below the node, with no sink reached. */
  lemma {:induction false} VisitClosed(p: Program, sinks: set<Fn>, u: set<Obj>, info: Info, n: Node, s: State, f: Facts)
    requires Bounded(p, u, s) && Objects(p) <= u && InfoObjects(info) <= u && s.stack == [] && !s.hit
    requires f.Within(s.facts)
    requires var t := Visit(p, sinks, info, n, s); !t.hit && t.facts.tainted == f.tainted
    ensures FlowClosedBelow(p, info, n, f) && !SinkBelow(info, n, sinks, f)
    decreases n
  {
    EnterKeeps(p, sinks, u, info, n, s);
    var s1 := Enter(p, sinks, info, n, s);
    var s2 := Pop(s1, IdentsBefore(n));
    KidsKeep(p, sinks, u, info, n, 0, s2);
    EnterClosed(p, sinks, u, info, n, s, f);
    KidsClosed(p, sinks, u, info, n, 0, s2, f);
  }

  lemma {:induction false} KidsClosed(p: Program, sinks: set<Fn>, u: set<Obj>, info: Info, n: Node, i: nat, s: State, f: Facts)
    requires i <= |Kids(n)|
    requires Bounded(p, u, s) && Objects(p) <= u && InfoObjects(info) <= u && s.stack == [] && !s.hit
    requires f.Within(s.facts)
    requires var t := VisitKids(p, sinks, info, n, i, s); !t.hit && t.facts.tainted == f.tainted
    ensures forall j | i <= j < |Kids(n)| ::
      FlowClosedBelow(p, info, Kids(n)[j], f) && !SinkBelow(info, Kids(n)[j], sinks, f)
    decreases n, |Kids(n)| - i
  {
    hide Visit, FlowClosedBelow, SinkBelow, InfoObjects, Objects;
    if i < |Kids(n)| {
      var s1 := Visit(p, sinks, info, Kids(n)[i], s);
      VisitKeeps(p, sinks, u, info, Kids(n)[i], s);
      if s1.hit { HitStays(p, sinks, info, n, i + 1, s1); }
      KidsKeep(p, sinks, u, info, n, i + 1, s1);
      VisitClosed(p, sinks, u, info, Kids(n)[i], s, f);
      KidsClosed(p, sinks, u, info, n, i + 1, s1, f);
    }
  }
}
