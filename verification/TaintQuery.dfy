/** A whole query: sweeps repeated until the worklist is empty. */
module TaintQuery {
  import opened TaintSyntax
  import opened TaintRules
  import opened TaintClosure
  import opened TaintWalk

  /** Every object a query for `src` can taint. */
  function Universe(p: Program, src: Obj): set<Obj> {
    Objects(p) + {src}
  }

  lemma {:induction false} SweepKeeps(p: Program, sinks: set<Fn>, u: set<Obj>, i: nat, s: State)
    requires i <= |p.files| && Bounded(p, u, s) && Objects(p) <= u
    ensures var t := Sweep(p, sinks, i, s); Bounded(p, u, t) && Grows(s, t)
    decreases |p.files| - i
  {
    if i < |p.files| && !s.hit {
      TargetsAreObjects(p, i);
      VisitKeeps(p, sinks, u, p.files[i].info, p.files[i].root, s.(stack := []));
      SweepKeeps(p, sinks, u, i + 1, Visit(p, sinks, p.files[i].info, p.files[i].root, s.(stack := [])));
    }
  }

  lemma {:induction false} SweepSound(p: Program, sinks: set<Fn>, u: set<Obj>, i: nat, s: State, c: Facts)
    requires i <= |p.files| && Bounded(p, u, s) && Objects(p) <= u && !s.hit
    requires AllRuleClosed(p, c) && s.facts.Within(c)
    ensures var t := Sweep(p, sinks, i, s); t.facts.Within(c) && (t.hit ==> SinkReached(p, sinks, c))
    decreases |p.files| - i
  {
    if i < |p.files| {
      var f := p.files[i];
      TargetsAreObjects(p, i);
      VisitKeeps(p, sinks, u, f.info, f.root, s.(stack := []));
      VisitSound(p, sinks, u, f.info, f.root, s.(stack := []), c);
      var s1 := Visit(p, sinks, f.info, f.root, s.(stack := []));
      if !s1.hit { SweepSound(p, sinks, u, i + 1, s1, c); }
    }
  }

  lemma {:induction false} SweepClosed(p: Program, sinks: set<Fn>, u: set<Obj>, i: nat, s: State, f: Facts)
    requires i <= |p.files| && Bounded(p, u, s) && Objects(p) <= u && !s.hit
    requires f.Within(s.facts)
    requires var t := Sweep(p, sinks, i, s); !t.hit && t.facts.tainted == f.tainted
    ensures forall j | i <= j < |p.files| ::
      FlowClosedBelow(p, p.files[j].info, p.files[j].root, f) && !SinkBelow(p.files[j].info, p.files[j].root, sinks, f)
    decreases |p.files| - i
  {
    hide Visit, FlowClosedBelow, SinkBelow, InfoObjects, Objects;
    if i < |p.files| {
      var g := p.files[i];
      var s1 := Visit(p, sinks, g.info, g.root, s.(stack := []));
      TargetsAreObjects(p, i);
      VisitKeeps(p, sinks, u, g.info, g.root, s.(stack := []));
      SweepKeeps(p, sinks, u, i + 1, s1);
      VisitClosed(p, sinks, u, g.info, g.root, s.(stack := []), f);
      SweepClosed(p, sinks, u, i + 1, s1, f);
    }
  }

  lemma {:induction false} SubsetSize<T>(a: set<T>, b: set<T>)
    requires a <= b
    ensures |a| <= |b| && (|a| == |b| ==> a == b)
  {
    if a != {} {
      var x :| x in a;
      SubsetSize(a - {x}, b - {x});
    }
  }

  // ---------- draining the worklist ----------

  /** Sweeps until the worklist, of which only the length matters, is empty.  The
      pair (objects not yet tainted, worklist length) decreases at every sweep. */
  ghost function Drain(p: Program, sinks: set<Fn>, u: set<Obj>, s: State, pending: nat): (t: State)
    requires Bounded(p, u, s) && Objects(p) <= u && !s.hit
    ensures Bounded(p, u, t) && Grows(s, t)
    decreases |u - s.facts.tainted|, pending
  {
    if pending == 0 then s
    else
      var t := Sweep(p, sinks, 0, s);
      SweepKeeps(p, sinks, u, 0, s);
      if t.hit then t
      else if t.facts.tainted == s.facts.tainted then Drain(p, sinks, u, t, pending - 1)
      else
        SubsetSize(u - t.facts.tainted, u - s.facts.tainted);
        Drain(p, sinks, u, t, |t.facts.tainted|)
  }

  /** How many sweeps that takes. */
  ghost function SweepCount(p: Program, sinks: set<Fn>, u: set<Obj>, s: State, pending: nat): nat
    requires Bounded(p, u, s) && Objects(p) <= u && !s.hit
    decreases |u - s.facts.tainted|, pending
  {
    if pending == 0 then 0
    else
      var t := Sweep(p, sinks, 0, s);
      SweepKeeps(p, sinks, u, 0, s);
      if t.hit then 1
      else if t.facts.tainted == s.facts.tainted then 1 + SweepCount(p, sinks, u, t, pending - 1)
      else
        SubsetSize(u - t.facts.tainted, u - s.facts.tainted);
        1 + SweepCount(p, sinks, u, t, |t.facts.tainted|)
  }

  /** The state a query ends in. */
  ghost function Final(p: Program, src: Obj, sinks: set<Fn>): State {
    Drain(p, sinks, Universe(p, src), Start(src), 1)
  }

  lemma {:induction false} DrainSound(p: Program, sinks: set<Fn>, u: set<Obj>, s: State, pending: nat, c: Facts)
    requires Bounded(p, u, s) && Objects(p) <= u && !s.hit
    requires AllRuleClosed(p, c) && s.facts.Within(c)
    ensures var t := Drain(p, sinks, u, s, pending); t.facts.Within(c) && (t.hit ==> SinkReached(p, sinks, c))
    decreases |u - s.facts.tainted|, pending
  {
    if pending > 0 {
      var t := Sweep(p, sinks, 0, s);
      SweepKeeps(p, sinks, u, 0, s);
      SweepSound(p, sinks, u, 0, s, c);
      if !t.hit {
        SubsetSize(u - t.facts.tainted, u - s.facts.tainted);
        DrainSound(p, sinks, u, t, if t.facts.tainted == s.facts.tainted then pending - 1 else |t.facts.tainted|, c);
      }
    }
  }

  /** `t` is one hit-free sweep after `last` that taints nothing new, and the facts of
      `last` are closed under the flow rules and touch no sink. */
  ghost predicate SettlesFrom(p: Program, sinks: set<Fn>, last: State, t: State) {
    && !last.hit && Sweep(p, sinks, 0, last) == t && !t.hit && last.facts.tainted == t.facts.tainted
    && last.facts.Within(t.facts) && AllFlowClosed(p, last.facts) && !SinkReached(p, sinks, last.facts)
  }

  /** When the worklist drains, the last sweep tainted nothing, so the facts it
      started from are closed under the flow rules and touch no sink. */
  lemma {:induction false} DrainClosed(p: Program, sinks: set<Fn>, u: set<Obj>, s: State, pending: nat) returns (last: State)
    requires Bounded(p, u, s) && Objects(p) <= u && !s.hit && pending > 0
    requires s.facts.tainted != {}
    requires !Drain(p, sinks, u, s, pending).hit
    ensures Grows(s, last) && SettlesFrom(p, sinks, last, Drain(p, sinks, u, s, pending))
    decreases |u - s.facts.tainted|, pending
  {
    var t := Sweep(p, sinks, 0, s);
    SweepKeeps(p, sinks, u, 0, s);
    SubsetSize(u - t.facts.tainted, u - s.facts.tainted);
    if t.facts.tainted != s.facts.tainted {
      last := DrainClosed(p, sinks, u, t, |t.facts.tainted|);
    } else if pending > 1 {
      last := DrainClosed(p, sinks, u, t, pending - 1);
    } else {
      last := s;
      SweepClosed(p, sinks, u, 0, s, s.facts);
    }
  }

  // ---------- the bracket ----------

  /** Soundness: whatever a query taints is derivable, and a positive answer means
      the least closure of the source under the rules that can fire, which do not
      include return statements, reaches a sink. */
  lemma FlowsToIsSound(p: Program, src: Obj, sinks: set<Fn>)
    ensures Final(p, src, sinks).hit ==> RulesReach(p, src, sinks)
    ensures forall c: Facts :: src in c.tainted && AllRuleClosed(p, c) ==> Final(p, src, sinks).facts.Within(c)
  {
    forall c: Facts | src in c.tainted && AllRuleClosed(p, c)
      ensures Final(p, src, sinks).facts.Within(c)
      ensures Final(p, src, sinks).hit ==> SinkReached(p, sinks, c)
    {
      DrainSound(p, sinks, Universe(p, src), Start(src), 1, c);
    }
  }

  /** Lower bound: a negative answer is one more sweep after a state whose tainted set is
      already final and whose facts, outputs and keys included, are closed under the flow
      rules and reach no sink; so whenever the least flow closure of the source reaches a
      sink the answer is positive. */
  lemma {:induction false} FlowsToIsComplete(p: Program, src: Obj, sinks: set<Fn>)
    ensures FlowReaches(p, src, sinks) ==> Final(p, src, sinks).hit
    ensures !Final(p, src, sinks).hit ==>
      exists last: State :: src in last.facts.tainted && SettlesFrom(p, sinks, last, Final(p, src, sinks))
  {
    if !Final(p, src, sinks).hit {
      var last := DrainClosed(p, sinks, Universe(p, src), Start(src), 1);
    }
  }

  /** A query never leaves the depth budget, so no queued object is ever dropped for
      its depth, and it never marks a function outside the catalogs as returning
      taint: the return rule cannot fire. */
  lemma QueryStaysBounded(p: Program, src: Obj, sinks: set<Fn>)
    ensures var t := Final(p, src, sinks);
      t.facts.tainted <= Universe(p, src) &&
      (forall o :: o in t.depth ==> t.depth[o] <= MAX_DEPTH) &&
      (forall f :: f in t.facts.outputs ==> InCatalog(p, f))
  {}
}
