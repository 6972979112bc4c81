/** The budgeted graph search behind the SSA rules, and its two instances: forward
  from a PAN field to a logger call, backward from a crypto call to a key constant. */
module SsaSearch {
  import opened Options

  type V = nat

  /** What one value leads to: an accepted target, or another value. */
  datatype Edge = Hit | Go(v: V)

  type Graph = V -> seq<Edge>

  /** Depth-limited depth-first search with a visited set shared by all branches;
      yields the value whose edge was accepted. */
  function Walk(g: Graph, v: V, remaining: int, seen: set<V>): (r: (Option<V>, set<V>))
    decreases if remaining > 0 then remaining else 0, 1, 0
  {
    if remaining <= 0 || v in seen then (None, seen) else WalkEdges(g, v, g(v), remaining, seen + {v})
  }

  function WalkEdges(g: Graph, v: V, es: seq<Edge>, remaining: int, seen: set<V>): (r: (Option<V>, set<V>))
    requires remaining > 0
    decreases remaining, 0, |es|
  {
    if es == [] then (None, seen)
    else if es[0].Hit? then (Some(v), seen)
    else
      var r := Walk(g, es[0].v, remaining - 1, seen);
      if r.0.Some? then r else WalkEdges(g, v, es[1..], remaining, r.1)
  }

  // ---------- paths ----------

  predicate Path(g: Graph, path: seq<V>) {
    |path| > 0 && forall i | 0 <= i < |path| - 1 :: Go(path[i + 1]) in g(path[i])
  }

  /** A path from `v` to the accepting value `w`. */
  predicate PathTo(g: Graph, v: V, w: V, path: seq<V>) {
    Path(g, path) && path[0] == v && path[|path| - 1] == w && Hit in g(w)
  }

  ghost predicate Reaches(g: Graph, v: V) {
    exists w, path :: PathTo(g, v, w, path)
  }

  /** `r` is closed under edges: it holds everything reachable from its members. */
  predicate Closed(g: Graph, r: set<V>) {
    forall v, e | v in r && e in g(v) :: e.Go? ==> e.v in r
  }

  // ---------- soundness ----------

  /** A positive answer comes with a path of at most `remaining` values. */
  lemma {:induction false} WalkSound(g: Graph, v: V, remaining: int, seen: set<V>)
    ensures var r := Walk(g, v, remaining, seen);
      r.0.Some? ==> exists path :: PathTo(g, v, r.0.value, path) && |path| <= remaining
    decreases if remaining > 0 then remaining else 0, 1, 0
  {
    if remaining > 0 && v !in seen { EdgesSound(g, v, g(v), remaining, seen + {v}); }
  }

  lemma {:induction false} EdgesSound(g: Graph, v: V, es: seq<Edge>, remaining: int, seen: set<V>)
    requires remaining > 0 && forall e :: e in es ==> e in g(v)
    ensures var r := WalkEdges(g, v, es, remaining, seen);
      r.0.Some? ==> exists path :: PathTo(g, v, r.0.value, path) && |path| <= remaining
    decreases remaining, 0, |es|
  {
    if es == [] {
    } else if es[0].Hit? {
      assert PathTo(g, v, v, [v]);
    } else {
      var r := Walk(g, es[0].v, remaining - 1, seen);
      WalkSound(g, es[0].v, remaining - 1, seen);
      if r.0.Some? {
        var path :| PathTo(g, es[0].v, r.0.value, path) && |path| <= remaining - 1;
        assert PathTo(g, v, r.0.value, [v] + path);
      } else {
        EdgesSound(g, v, es[1..], remaining, r.1);
      }
    }
  }

  // ---------- exactness within the budget ----------

  /** `v` is finished in `seen`: it accepts nothing and all it leads to is seen. */
  predicate Finished(g: Graph, v: V, seen: set<V>) {
    forall e | e in g(v) :: e.Go? && e.v in seen
  }

  lemma {:induction false} SmallerLeft(r: set<V>, seen: set<V>, more: set<V>)
    requires seen <= more
    ensures |r - more| <= |r - seen|
  {
    var a, b := r - more, r - seen;
    assert b == a + (b - a);
    assert |b| == |a| + |b - a|;
  }

  /** When the budget covers the unseen part of a closed set holding `v`, a negative
      walk sees `v` and finishes every value it newly saw. */
  lemma {:induction false} WalkFinishes(g: Graph, r: set<V>, v: V, remaining: int, seen: set<V>)
    requires Closed(g, r) && v in r && remaining >= |r - seen| && (v !in seen ==> remaining > 0)
    requires Walk(g, v, remaining, seen).0.None?
    ensures var s := Walk(g, v, remaining, seen).1;
      seen <= s && v in s && s - seen <= r && forall x | x in s - seen :: Finished(g, x, s)
    decreases if remaining > 0 then remaining else 0, 1, 0
  {
    if v !in seen {
      assert r - seen == (r - (seen + {v})) + {v};
      EdgesFinish(g, r, v, g(v), remaining, seen + {v});
    }
  }

  lemma {:induction false} EdgesFinish(g: Graph, r: set<V>, v: V, es: seq<Edge>, remaining: int, seen: set<V>)
    requires Closed(g, r) && v in r && v in seen && remaining > |r - seen|
    requires forall e :: e in es ==> e in g(v)
    requires WalkEdges(g, v, es, remaining, seen).0.None?
    ensures var s := WalkEdges(g, v, es, remaining, seen).1;
      seen <= s && s - seen <= r && (forall e | e in es :: e.Go? && e.v in s) &&
      forall x | x in s - seen :: Finished(g, x, s)
    decreases remaining, 0, |es|
  {
    if es != [] {
      var x := es[0].v;
      assert es[0] in g(v);
      if x !in seen { assert x in r - seen; }
      WalkFinishes(g, r, x, remaining - 1, seen);
      var s1 := Walk(g, x, remaining - 1, seen).1;
      SmallerLeft(r, seen, s1);
      EdgesFinish(g, r, v, es[1..], remaining, s1);
      var s := WalkEdges(g, v, es, remaining, seen).1;
      forall e | e in es ensures e.Go? && e.v in s { if e != es[0] { assert e in es[1..]; } }
      forall y | y in s - seen ensures Finished(g, y, s) { assert y in s1 - seen || y in s - s1; }
    }
  }

  /** Along a path from a member of a set whose members are all finished, every value
      is in the set, so none accepts. */
  lemma {:induction false} FinishedStops(g: Graph, s: set<V>, path: seq<V>)
    requires Path(g, path) && path[0] in s && forall x | x in s :: Finished(g, x, s)
    ensures Hit !in g(path[|path| - 1])
    decreases |path|
  {
    if |path| == 1 {
      assert Finished(g, path[0], s);
    } else {
      assert Go(path[1]) in g(path[0]);
      forall i | 0 <= i < |path[1..]| - 1 ensures Go(path[1..][i + 1]) in g(path[1..][i]) {
        assert Go(path[i + 1 + 1]) in g(path[i + 1]);
      }
      FinishedStops(g, s, path[1..]);
    }
  }

  /** The search is sound for every budget, and decides reachability whenever the
      values reachable from the start, which all lie in some closed set `r`, number
      at most the budget. */
  lemma SearchExact(g: Graph, r: set<V>, v: V, budget: int)
    requires Closed(g, r) && v in r && |r| <= budget
    ensures Walk(g, v, budget, {}).0.Some? <==> Reaches(g, v)
  {
    WalkSound(g, v, budget, {});
    assert r - {} == r && v in r && |r| > 0;
    if Walk(g, v, budget, {}).0.None? {
      WalkFinishes(g, r, v, budget, {});
      var s := Walk(g, v, budget, {}).1;
      assert s - {} == s;
      forall w, path ensures !PathTo(g, v, w, path) {
        if Path(g, path) && path[0] == v { FinishedStops(g, s, path); }
      }
    }
  }

  // ---------- beyond the budget ----------

  /** 0 leads to 1, and so on up to `n - 1`, which is accepted. */
  function Line(n: nat): Graph {
    (v: V) => if v + 1 < n then [Go(v + 1)] else if v + 1 == n then [Hit] else []
  }

  lemma {:induction false} LineSteps(n: nat, path: seq<V>, k: nat)
    requires Path(Line(n), path) && path[0] == 0 && k < |path|
    ensures path[k] == k
  {
    if k > 0 {
      LineSteps(n, path, k - 1);
      assert Go(path[k - 1 + 1]) in Line(n)(path[k - 1]);
    }
  }

  function UpTo(n: nat): (s: set<V>)
    ensures |s| == n && forall v: V :: v in s <==> v < n
  {
    if n == 0 then {} else UpTo(n - 1) + {n - 1}
  }

  lemma LineReaches(n: nat)
    requires n > 0
    ensures Reaches(Line(n), 0)
  {
    var path := seq(n, i requires 0 <= i < n => i as V);
    assert Path(Line(n), path) by {
      forall i | 0 <= i < |path| - 1 ensures Go(path[i + 1]) in Line(n)(path[i]) {}
    }
    assert PathTo(Line(n), 0, n - 1, path);
  }

  lemma LineNeedsBudget(n: nat, budget: int)
    requires budget < n
    ensures Walk(Line(n), 0, budget, {}).0.None?
  {
    var g := Line(n);
    WalkSound(g, 0, budget, {});
    if Walk(g, 0, budget, {}).0.Some? {
      var w := Walk(g, 0, budget, {}).0.value;
      var path :| PathTo(g, 0, w, path) && |path| <= budget;
      LineSteps(n, path, |path| - 1);
    }
  }

  /** The bound of `SearchExact` is tight for every size: a budget decides every graph in
      which `n` values are reachable if and only if it is at least `n`. */
  lemma BudgetDecidesExactly(n: nat, budget: int)
    requires n > 0
    ensures (forall g: Graph, r: set<V>, v: V | Closed(g, r) && v in r && |r| == n ::
               Walk(g, v, budget, {}).0.Some? <==> Reaches(g, v))
       <==> budget >= n
  {
    if budget >= n {
      forall g: Graph, r: set<V>, v: V | Closed(g, r) && v in r && |r| == n
        ensures Walk(g, v, budget, {}).0.Some? <==> Reaches(g, v)
      {
        SearchExact(g, r, v, budget);
      }
    } else {
      LineReaches(n);
      LineNeedsBudget(n, budget);
      assert Closed(Line(n), UpTo(n)) && 0 in UpTo(n) && |UpTo(n)| == n;
    }
  }

  /** 0 leads to 1 and 3, 1 to 2, 2 to 3, 3 to 4, and 4 is accepted. */
  function Detour(v: V): seq<Edge> {
    if v == 0 then [Go(1), Go(3)] else if v == 1 then [Go(2)] else if v == 2 then [Go(3)]
    else if v == 3 then [Go(4)] else if v == 4 then [Hit] else []
  }

  /** A larger budget can lose an answer: with budget 3 the search finds the short
      branch, with 4 the long branch reaches value 3 first with no budget to go on
      and the visited set blocks the short one. Five values are reachable here. */
  lemma BudgetIsNotMonotone()
    ensures Walk(Detour, 0, 3, {}).0 == Some(4)
    ensures Walk(Detour, 0, 4, {}).0 == None
    ensures Closed(Detour, {0, 1, 2, 3, 4}) && Reaches(Detour, 0)
  {
    ShortBudget();
    LongBudget();
    assert PathTo(Detour, 0, 4, [0, 3, 4]);
  }

  lemma ShortBudget()
    ensures Walk(Detour, 0, 3, {}).0 == Some(4)
  {
    var g := Detour;
    var a, b, c: set<V> := {0}, {0, 1}, {0, 1, 2};
    assert Walk(g, 3, 0, c) == (None, c);
    assert WalkEdges(g, 2, [Go(3)], 1, c) == (None, c) by { assert WalkEdges(g, 2, [], 1, c) == (None, c); }
    assert b + {2} == c && Walk(g, 2, 1, b) == (None, c);
    assert WalkEdges(g, 1, [Go(2)], 2, b) == (None, c) by { assert WalkEdges(g, 1, [], 2, c) == (None, c); }
    assert a + {1} == b && Walk(g, 1, 2, a) == (None, c);
    assert WalkEdges(g, 4, [Hit], 1, c + {3} + {4}).0 == Some(4);
    assert Walk(g, 4, 1, c + {3}).0 == Some(4);
    assert WalkEdges(g, 3, [Go(4)], 2, c + {3}).0 == Some(4);
    assert Walk(g, 3, 2, c).0 == Some(4);
    assert [Go(1), Go(3)][1..] == [Go(3)];
    assert WalkEdges(g, 0, [Go(3)], 3, c).0 == Some(4);
    assert {} + {0} == a && WalkEdges(g, 0, [Go(1), Go(3)], 3, a).0 == Some(4);
  }

  lemma LongBudget()
    ensures Walk(Detour, 0, 4, {}).0 == None
  {
    var g := Detour;
    var a, b, c, d: set<V> := {0}, {0, 1}, {0, 1, 2}, {0, 1, 2, 3};
    assert Walk(g, 4, 0, d) == (None, d);
    assert WalkEdges(g, 3, [Go(4)], 1, d) == (None, d) by { assert WalkEdges(g, 3, [], 1, d) == (None, d); }
    assert c + {3} == d && Walk(g, 3, 1, c) == (None, d);
    assert WalkEdges(g, 2, [Go(3)], 2, c) == (None, d) by { assert WalkEdges(g, 2, [], 2, d) == (None, d); }
    assert b + {2} == c && Walk(g, 2, 2, b) == (None, d);
    assert WalkEdges(g, 1, [Go(2)], 3, b) == (None, d) by { assert WalkEdges(g, 1, [], 3, d) == (None, d); }
    assert a + {1} == b && Walk(g, 1, 3, a) == (None, d);
    assert Walk(g, 3, 3, d) == (None, d);
    assert WalkEdges(g, 0, [Go(3)], 4, d) == (None, d) by { assert WalkEdges(g, 0, [], 4, d) == (None, d); }
    assert [Go(1), Go(3)][1..] == [Go(3)];
    assert {} + {0} == a && WalkEdges(g, 0, [Go(1), Go(3)], 4, a).0 == None;
  }
}
