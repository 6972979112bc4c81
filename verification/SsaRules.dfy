/** The two SSA rules: does a value reach a logger call, and does a key constant
  feed a crypto call. Instructions are numbered; a value operand of an address
  computation is numbered before it. */
module SsaRules {
  import opened Options
  import opened SsaSearch

  const WALK_BUDGET: nat := 64

  /** `Unary` stands for UnOp, Convert, ChangeType, Slice and MakeInterface; `key` says
      a constant meets the hardcoded-key heuristic, `logger` that a call is a sink;
      `Effect` is an instruction without a value. */
  datatype Instr =
    | Const(key: bool)
    | Unary(x: V)
    | FieldAddr(x: V)
    | IndexAddr(x: V)
    | Phi(edges: seq<V>)
    | Call(fun: V, args: seq<V>, logger: bool)
    | Alloc
    | Store(addr: V, val: V)
    | OtherValue
    | Effect

  datatype Ssa = Ssa(instrs: map<V, Instr>, referrers: map<V, seq<V>>)
  {
    function At(v: V): Instr {
      if v in instrs then instrs[v] else Effect
    }

    function Refs(v: V): seq<V> {
      if v in referrers then referrers[v] else []
    }

    /** Address operands are defined before the addresses computed from them. */
    predicate Ordered() {
      forall a | a in instrs :: (instrs[a].FieldAddr? || instrs[a].IndexAddr?) ==> instrs[a].x < a
    }
  }

  predicate IsAddress(i: Instr) {
    i.FieldAddr? || i.IndexAddr?
  }

  /** The aggregate an address chain points into. */
  function Base(p: Ssa, a: V): V {
    if IsAddress(p.At(a)) && p.At(a).x < a then Base(p, p.At(a).x) else a
  }

  /** Following field and index addresses from `a` leads to `b`, which is neither. */
  ghost predicate EndsAt(p: Ssa, a: V, b: V) {
    exists chain: seq<V> :: AddressChain(p, chain) && chain[0] == a && chain[|chain| - 1] == b
  }

  predicate AddressChain(p: Ssa, chain: seq<V>) {
    |chain| > 0 && (forall i | 0 <= i < |chain| - 1 ::
      p.At(chain[i]) == FieldAddr(chain[i + 1]) || p.At(chain[i]) == IndexAddr(chain[i + 1])) &&
    !p.At(chain[|chain| - 1]).FieldAddr? && !p.At(chain[|chain| - 1]).IndexAddr?
  }

  lemma {:induction false} BaseEnds(p: Ssa, a: V)
    requires p.Ordered()
    ensures EndsAt(p, a, Base(p, a))
    decreases a
  {
    if IsAddress(p.At(a)) {
      var x := p.At(a).x;
      BaseEnds(p, x);
      var chain :| AddressChain(p, chain) && chain[0] == x && chain[|chain| - 1] == Base(p, x);
      assert forall i | 0 <= i < |chain| :: ([a] + chain)[i + 1] == chain[i];
      assert AddressChain(p, [a] + chain) && ([a] + chain)[0] == a;
    } else {
      assert AddressChain(p, [a]) && [a][0] == a;
    }
  }

  lemma {:induction false} ChainEndsAtBase(p: Ssa, chain: seq<V>)
    requires p.Ordered() && AddressChain(p, chain)
    ensures Base(p, chain[0]) == chain[|chain| - 1]
    decreases |chain|
  {
    if |chain| > 1 {
      assert forall i | 0 <= i < |chain| - 1 :: chain[1..][i] == chain[i + 1];
      assert p.At(chain[0]) == FieldAddr(chain[0 + 1]) || p.At(chain[0]) == IndexAddr(chain[0 + 1]);
      assert AddressChain(p, chain[1..]) by {
        forall i | 0 <= i < |chain[1..]| - 1
          ensures p.At(chain[1..][i]) == FieldAddr(chain[1..][i + 1]) || p.At(chain[1..][i]) == IndexAddr(chain[1..][i + 1])
        {
          assert p.At(chain[i + 1]) == FieldAddr(chain[i + 1 + 1]) || p.At(chain[i + 1]) == IndexAddr(chain[i + 1 + 1]);
        }
      }
      ChainEndsAtBase(p, chain[1..]);
    }
  }

  lemma BaseIsEnd(p: Ssa, a: V, b: V)
    requires p.Ordered()
    ensures EndsAt(p, a, b) <==> Base(p, a) == b
  {
    BaseEnds(p, a);
    if EndsAt(p, a, b) {
      var chain :| AddressChain(p, chain) && chain[0] == a && chain[|chain| - 1] == b;
      ChainEndsAtBase(p, chain);
    }
  }

  /** `aggregateBase`: the end of the chain, itself no field or index address. */
  method AggregateBase(p: Ssa, addr: V) returns (root: V)
    requires p.Ordered()
    ensures root == Base(p, addr) && EndsAt(p, addr, root)
  {
    BaseIsEnd(p, addr, Base(p, addr));
    root := addr;
    while IsAddress(p.At(root))
      invariant Base(p, root) == Base(p, addr)
      decreases root
    {
      root := p.At(root).x;
    }
  }

  // ---------- forward: to a logger ----------

  function RefEdges(p: Ssa, v: V, r: V): seq<Edge> {
    match p.At(r)
    case Call(fun, args, logger) => if logger then [Hit] else if v in args || fun == v then [Go(r)] else []
    case Store(addr, val) => if val == v then [Go(Base(p, addr)), Go(addr)] else []
    case Effect => []
    case _ => [Go(r)]
  }

  function RefsEdges(p: Ssa, v: V, rs: seq<V>): seq<Edge> {
    if rs == [] then [] else RefEdges(p, v, rs[0]) + RefsEdges(p, v, rs[1..])
  }

  function Forward(p: Ssa): Graph {
    (v: V) => RefsEdges(p, v, p.Refs(v))
  }

  // ---------- backward: to a key constant ----------

  function GoAll(vs: seq<V>): (es: seq<Edge>)
    ensures |es| == |vs| && forall i | 0 <= i < |vs| :: es[i] == Go(vs[i])
  {
    if vs == [] then [] else [Go(vs[0])] + GoAll(vs[1..])
  }

  /** The values stored by the referrers of an allocation. */
  function StoredValues(p: Ssa, rs: seq<V>): seq<V> {
    if rs == [] then []
    else (if p.At(rs[0]).Store? then [p.At(rs[0]).val] else []) + StoredValues(p, rs[1..])
  }

  function Feeds(p: Ssa, v: V): seq<Edge> {
    match p.At(v)
    case Const(key) => if key then [Hit] else []
    case Unary(x) => [Go(x)]
    case FieldAddr(x) => [Go(x)]
    case IndexAddr(x) => [Go(x)]
    case Phi(edges) => GoAll(edges)
    case Call(_, args, _) => GoAll(args)
    case Alloc => GoAll(StoredValues(p, p.Refs(v)))
    case _ => []
  }

  function Backward(p: Ssa): Graph {
    (v: V) => Feeds(p, v)
  }

  // ---------- what the edges are ----------

  /** Some call of a logger has `v` among its referrers' operands. */
  predicate LoggerUses(p: Ssa, v: V) {
    exists r | r in p.Refs(v) :: p.At(r).Call? && p.At(r).logger
  }

  /** What referrer `r` leads from `v` to: the result of a call that takes `v`, the
      aggregate and the address `v` is stored through, any other value computed from it. */
  ghost predicate LeadsVia(p: Ssa, v: V, r: V, w: V) {
    match p.At(r)
    case Call(fun, args, logger) => !logger && (v in args || v == fun) && w == r
    case Store(addr, val) => val == v && (w == addr || EndsAt(p, addr, w))
    case Effect => false
    case _ => w == r
  }

  ghost predicate LeadsTo(p: Ssa, v: V, w: V) {
    exists r | r in p.Refs(v) :: LeadsVia(p, v, r, w)
  }

  /** `v` is computed from `w`: an operand, an edge of a phi, an argument of a call, or what
      a direct referrer of the allocation `v` stores. */
  predicate ComputedFrom(p: Ssa, v: V, w: V) {
    p.At(v) == Unary(w) || p.At(v) == FieldAddr(w) || p.At(v) == IndexAddr(w) ||
    (p.At(v).Phi? && w in p.At(v).edges) || (p.At(v).Call? && w in p.At(v).args) ||
    (p.At(v).Alloc? && exists r | r in p.Refs(v) :: p.At(r).Store? && p.At(r).val == w)
  }

  /** A value path of the search from `v`, each value leading to the next, whose last one
      is handed to a logger. */
  ghost predicate LoggedAlong(p: Ssa, v: V, path: seq<V>) {
    |path| > 0 && path[0] == v && LoggerUses(p, path[|path| - 1]) &&
    forall i | 0 <= i < |path| - 1 :: LeadsTo(p, path[i], path[i + 1])
  }

  /** A path back from `v`, each value computed from the next, to the key constant `k`. */
  predicate KeyAlong(p: Ssa, v: V, k: V, path: seq<V>) {
    |path| > 0 && path[0] == v && path[|path| - 1] == k && p.At(k) == Const(true) &&
    forall i | 0 <= i < |path| - 1 :: ComputedFrom(p, path[i], path[i + 1])
  }

  lemma {:induction false} RefsEdgesIn(p: Ssa, v: V, rs: seq<V>, e: Edge)
    ensures e in RefsEdges(p, v, rs) <==> exists r | r in rs :: e in RefEdges(p, v, r)
  {
    if rs != [] { RefsEdgesIn(p, v, rs[1..], e); }
  }

  lemma RefEdgesAre(p: Ssa, v: V, r: V, w: V)
    requires p.Ordered()
    ensures Hit in RefEdges(p, v, r) <==> p.At(r).Call? && p.At(r).logger
    ensures Go(w) in RefEdges(p, v, r) <==> LeadsVia(p, v, r, w)
  {
    if p.At(r).Store? { BaseIsEnd(p, p.At(r).addr, w); }
    hide EndsAt, Base;
  }

  lemma ForwardEdges(p: Ssa, v: V)
    requires p.Ordered()
    ensures Hit in Forward(p)(v) <==> LoggerUses(p, v)
    ensures forall w: V :: Go(w) in Forward(p)(v) <==> LeadsTo(p, v, w)
  {
    RefsEdgesIn(p, v, p.Refs(v), Hit);
    forall r { RefEdgesAre(p, v, r, 0); }
    hide RefEdges, LeadsVia;
    forall w: V ensures Go(w) in Forward(p)(v) <==> LeadsTo(p, v, w) {
      RefsEdgesIn(p, v, p.Refs(v), Go(w));
      forall r { RefEdgesAre(p, v, r, w); }
    }
  }

  lemma {:induction false} StoredIn(p: Ssa, rs: seq<V>, w: V)
    ensures w in StoredValues(p, rs) <==> exists r | r in rs :: p.At(r).Store? && p.At(r).val == w
  {
    if rs != [] { StoredIn(p, rs[1..], w); }
  }

  lemma BackwardEdges(p: Ssa, v: V)
    ensures Hit in Backward(p)(v) <==> p.At(v) == Const(true)
    ensures forall w: V :: Go(w) in Backward(p)(v) <==> ComputedFrom(p, v, w)
  {
    forall w: V ensures Go(w) in Backward(p)(v) <==> ComputedFrom(p, v, w) {
      StoredIn(p, p.Refs(v), w);
      forall vs: seq<V> ensures Go(w) in GoAll(vs) <==> w in vs {
        if i :| 0 <= i < |vs| && vs[i] == w { assert GoAll(vs)[i] == Go(w); }
      }
    }
    forall vs: seq<V> ensures Hit !in GoAll(vs) {}
  }

  /** A value whose own edges accept is found at once. */
  lemma {:induction false} HitIsFound(g: Graph, v: V, es: seq<Edge>, remaining: int, seen: set<V>)
    requires remaining > 0 && Hit in es
    ensures WalkEdges(g, v, es, remaining, seen).0.Some?
    decreases |es|
  {
    if es[0].Go? { HitIsFound(g, v, es[1..], remaining, Walk(g, es[0].v, remaining - 1, seen).1); }
  }

  // ---------- the searches ----------

  lemma FoundStops(g: Graph, v: V, a: seq<Edge>, b: seq<Edge>, remaining: int, seen: set<V>)
    requires remaining > 0
    ensures var r := WalkEdges(g, v, a, remaining, seen);
      WalkEdges(g, v, a + b, remaining, seen) ==
        if r.0.Some? then r else WalkEdges(g, v, b, remaining, r.1)
    decreases |a|
  {
    if a == [] {
      assert a + b == b;
    } else {
      assert (a + b)[1..] == a[1..] + b;
      if a[0].Go? { FoundStops(g, v, a[1..], b, remaining, Walk(g, a[0].v, remaining - 1, seen).1); }
    }
  }

  lemma WalkOne(g: Graph, v: V, x: V, remaining: int, seen: set<V>)
    requires remaining > 0
    ensures WalkEdges(g, v, [Go(x)], remaining, seen) == Walk(g, x, remaining - 1, seen)
  {
    assert [Go(x)][1..] == [];
  }

  /** One search with its visited set; every branch shares it. */
  class Search {
    const p: Ssa
    var visited: set<V>

    constructor (p: Ssa)
      ensures this.p == p && visited == {}
    {
      this.p, visited := p, {};
    }

    /** `visit` inside `reachesSink`. */
    method Visit(v: V, remaining: int) returns (found: bool)
      requires p.Ordered()
      modifies this
      ensures var r := Walk(Forward(p), v, remaining, old(visited)); found == r.0.Some? && visited == r.1
      decreases if remaining > 0 then remaining else 0, 1
    {
      if remaining <= 0 || v in visited { return false; }
      visited := visited + {v};
      ghost var seen := visited;
      var refs := p.Refs(v);
      assert refs[0..] == refs;
      for i := 0 to |refs|
        invariant WalkEdges(Forward(p), v, RefsEdges(p, v, refs[i..]), remaining, visited)
               == WalkEdges(Forward(p), v, Forward(p)(v), remaining, seen)
      {
        assert refs[i..][1..] == refs[i + 1..];
        FoundStops(Forward(p), v, RefEdges(p, v, refs[i]), RefsEdges(p, v, refs[i + 1..]), remaining, visited);
        found := Follow(v, refs[i], remaining);
        if found { return; }
      }
      found := false;
    }

    /** What one referrer of `v` leads to. */
    method Follow(v: V, r: V, remaining: int) returns (found: bool)
      requires p.Ordered() && remaining > 0
      modifies this
      ensures var s := WalkEdges(Forward(p), v, RefEdges(p, v, r), remaining, old(visited));
        found == s.0.Some? && visited == s.1
      decreases remaining, 0
    {
      found := false;
      match p.At(r) {
        case Call(fun, args, logger) =>
          if logger { return true; }
          if v in args || fun == v {
            WalkOne(Forward(p), v, r, remaining, visited);
            found := Visit(r, remaining - 1);
          }
        case Store(addr, val) =>
          if val == v {
            var root := AggregateBase(p, addr);
            assert [Go(root), Go(addr)][1..] == [Go(addr)];
            found := Visit(root, remaining - 1);
            if found { return; }
            WalkOne(Forward(p), v, addr, remaining, visited);
            found := Visit(addr, remaining - 1);
          }
        case Effect =>
        case _ =>
          WalkOne(Forward(p), v, r, remaining, visited);
          found := Visit(r, remaining - 1);
      }
    }

    /** The stored values an allocation's referrers hold (`walkAllocBack`). */
    method CollectStored(refs: seq<V>) returns (vals: seq<V>)
      ensures vals == StoredValues(p, refs)
    {
      vals := [];
      for i := 0 to |refs|
        invariant vals + StoredValues(p, refs[i..]) == StoredValues(p, refs)
      {
        assert refs[i..][1..] == refs[i + 1..];
        if p.At(refs[i]).Store? { vals := vals + [p.At(refs[i]).val]; }
      }
    }

    /** `walk` inside `findHardcodedKeyConst`. */
    method WalkBack(v: V, remaining: int) returns (found: Option<V>)
      modifies this
      ensures var r := Walk(Backward(p), v, remaining, old(visited)); found == r.0 && visited == r.1
      decreases if remaining > 0 then remaining else 0, 1
    {
      if remaining <= 0 || v in visited { return None; }
      visited := visited + {v};
      assert Backward(p)(v) == Feeds(p, v);
      match p.At(v) {
        case Const(key) => return if key then Some(v) else None;
        case Unary(x) =>
          WalkOne(Backward(p), v, x, remaining, visited);
          found := WalkBack(x, remaining - 1);
        case FieldAddr(x) =>
          WalkOne(Backward(p), v, x, remaining, visited);
          found := WalkBack(x, remaining - 1);
        case IndexAddr(x) =>
          WalkOne(Backward(p), v, x, remaining, visited);
          found := WalkBack(x, remaining - 1);
        case Phi(edges) => found := WalkBackEach(v, edges, remaining);
        case Call(_, args, _) => found := WalkBackEach(v, args, remaining);
        case Alloc =>
          var vals := CollectStored(p.Refs(v));
          found := WalkBackEach(v, vals, remaining);
        case _ => return None;
      }
    }

    method WalkBackEach(ghost v: V, vs: seq<V>, remaining: int) returns (found: Option<V>)
      requires remaining > 0
      modifies this
      ensures var r := WalkEdges(Backward(p), v, GoAll(vs), remaining, old(visited)); found == r.0 && visited == r.1
      decreases remaining, 0
    {
      for i := 0 to |vs|
        invariant WalkEdges(Backward(p), v, GoAll(vs[i..]), remaining, visited)
               == WalkEdges(Backward(p), v, GoAll(vs), remaining, old(visited))
      {
        assert GoAll(vs[i..])[1..] == GoAll(vs[i + 1..]);
        found := WalkBack(vs[i], remaining - 1);
        if found.Some? { return; }
      }
      found := None;
    }
  }

  lemma ForwardPaths(p: Ssa, v: V)
    requires p.Ordered()
    ensures forall w, path :: PathTo(Forward(p), v, w, path) <==> LoggedAlong(p, v, path) && w == path[|path| - 1]
    ensures forall r: set<V> :: Closed(Forward(p), r) <==> forall x, w: V | x in r && LeadsTo(p, x, w) :: w in r
  {
    forall x: V { ForwardEdges(p, x); }
    hide Forward, LeadsTo, LoggerUses;
    forall r: set<V> | forall x, w: V | x in r && LeadsTo(p, x, w) :: w in r ensures Closed(Forward(p), r) {
      forall x, e | x in r && e in Forward(p)(x) && e.Go? ensures e.v in r { assert Go(e.v) in Forward(p)(x); }
    }
    forall r: set<V>, x, w: V | Closed(Forward(p), r) && x in r && LeadsTo(p, x, w) ensures w in r {
      assert Go(w) in Forward(p)(x);
    }
  }

  lemma BackwardPaths(p: Ssa, v: V)
    ensures forall k, path :: PathTo(Backward(p), v, k, path) <==> KeyAlong(p, v, k, path)
    ensures forall r: set<V> :: Closed(Backward(p), r) <==> forall x, w: V | x in r && ComputedFrom(p, x, w) :: w in r
  {
    forall x: V { BackwardEdges(p, x); }
    hide Backward, ComputedFrom;
    forall r: set<V> | forall x, w: V | x in r && ComputedFrom(p, x, w) :: w in r ensures Closed(Backward(p), r) {
      forall x, e | x in r && e in Backward(p)(x) && e.Go? ensures e.v in r { assert Go(e.v) in Backward(p)(x); }
    }
    forall r: set<V>, x, w: V | Closed(Backward(p), r) && x in r && ComputedFrom(p, x, w) ensures w in r {
      assert Go(w) in Backward(p)(x);
    }
  }

  /** `reachesSink`: a positive answer has a path of at most `budget` values to one that a
      logger call is given; a value handed straight to a logger is always found; and the
      answer is exactly whether such a path exists for every budget that covers the values
      `start` leads to. */
  method ReachesSink(p: Ssa, start: V, budget: int) returns (found: bool)
    requires p.Ordered()
    ensures found ==> exists path :: LoggedAlong(p, start, path) && |path| <= budget
    ensures LoggerUses(p, start) && budget >= 1 ==> found
    ensures forall r: set<V> | start in r && |r| <= budget && (forall v, w: V | v in r && LeadsTo(p, v, w) :: w in r) ::
      found <==> exists path :: LoggedAlong(p, start, path)
  {
    hide Walk, WalkEdges, Forward, LeadsTo, LoggerUses, Closed;
    var s := new Search(p);
    found := s.Visit(start, budget);
    WalkSound(Forward(p), start, budget, {});
    ForwardPaths(p, start);
    LoggedAtOnce(p, start, budget);
    forall r: set<V> | start in r && |r| <= budget && (forall v, w: V | v in r && LeadsTo(p, v, w) :: w in r)
      ensures found <==> exists path :: LoggedAlong(p, start, path)
    {
      assert Closed(Forward(p), r);
      SearchExact(Forward(p), r, start, budget);
      if path :| LoggedAlong(p, start, path) { assert PathTo(Forward(p), start, path[|path| - 1], path); }
    }
  }

  lemma LoggedAtOnce(p: Ssa, start: V, budget: int)
    requires p.Ordered()
    ensures LoggerUses(p, start) && budget >= 1 ==> Walk(Forward(p), start, budget, {}).0.Some?
  {
    ForwardEdges(p, start);
    hide Forward, WalkEdges;
    if LoggerUses(p, start) && budget >= 1 { HitIsFound(Forward(p), start, Forward(p)(start), budget, {} + {start}); }
  }

  /** `findHardcodedKeyConst`: the constant found is a key at the end of a path of at most
      `budget` values back from the seed; and one is found exactly when there is one, for
      every budget that covers the values the seed is computed from. */
  method FindHardcodedKey(p: Ssa, seed: V, budget: int) returns (found: Option<V>)
    ensures found.Some? ==> exists path :: KeyAlong(p, seed, found.value, path) && |path| <= budget
    ensures p.At(seed) == Const(true) && budget >= 1 ==> found == Some(seed)
    ensures forall r: set<V> | seed in r && |r| <= budget && (forall v, w: V | v in r && ComputedFrom(p, v, w) :: w in r) ::
      found.Some? <==> exists k, path :: KeyAlong(p, seed, k, path)
  {
    hide Walk, WalkEdges, Backward, ComputedFrom, Closed;
    var s := new Search(p);
    found := s.WalkBack(seed, budget);
    WalkSound(Backward(p), seed, budget, {});
    BackwardPaths(p, seed);
    KeyAtOnce(p, seed, budget);
    forall r: set<V> | seed in r && |r| <= budget && (forall v, w: V | v in r && ComputedFrom(p, v, w) :: w in r)
      ensures found.Some? <==> exists k, path :: KeyAlong(p, seed, k, path)
    {
      assert Closed(Backward(p), r);
      SearchExact(Backward(p), r, seed, budget);
      if k, path :| KeyAlong(p, seed, k, path) { assert PathTo(Backward(p), seed, k, path); }
    }
  }

  lemma KeyAtOnce(p: Ssa, seed: V, budget: int)
    ensures p.At(seed) == Const(true) && budget >= 1 ==> Walk(Backward(p), seed, budget, {}).0 == Some(seed)
  {
  }

  // ---------- stores through field and index addresses ----------

  ghost predicate TracedToKey(p: Ssa, v: V) {
    exists k, path :: KeyAlong(p, v, k, path)
  }

  lemma TracedReaches(p: Ssa, v: V)
    ensures TracedToKey(p, v) <==> Reaches(Backward(p), v)
  {
    BackwardPaths(p, v);
    hide Backward, KeyAlong;
  }

  /** A key is traced through an allocation if and only if it is traced from a value that a
      direct referrer of the allocation stores: a store through the address of one of its
      fields or elements is a referrer of that address, not of the allocation. */
  lemma AllocationFeedsExactly(p: Ssa, a: V)
    requires p.At(a).Alloc?
    ensures TracedToKey(p, a) <==> exists r | r in p.Refs(a) :: p.At(r).Store? && TracedToKey(p, p.At(r).val)
  {
    if TracedToKey(p, a) {
      var k, path :| KeyAlong(p, a, k, path);
      assert |path| > 1 && ComputedFrom(p, path[0], path[0 + 1]);
      var r :| r in p.Refs(a) && p.At(r).Store? && p.At(r).val == path[1];
      assert KeyAlong(p, path[1], k, path[1..]) by {
        forall i | 0 <= i < |path[1..]| - 1 ensures ComputedFrom(p, path[1..][i], path[1..][i + 1]) {
          assert ComputedFrom(p, path[i + 1], path[i + 1 + 1]);
        }
      }
    }
    if r :| r in p.Refs(a) && p.At(r).Store? && TracedToKey(p, p.At(r).val) {
      var k, path :| KeyAlong(p, p.At(r).val, k, path);
      var longer := [a] + path;
      assert ComputedFrom(p, a, path[0]);
      forall i | 0 <= i < |longer| - 1 ensures ComputedFrom(p, longer[i], longer[i + 1]) {
        if i > 0 { assert ComputedFrom(p, path[i - 1], path[i - 1 + 1]); }
      }
      assert KeyAlong(p, a, k, longer);
    }
  }

  /** `k.f = "secret"` and `use(k.f)`: the key constant 2 is stored through one field address
      of allocation 0, and the load 5 through another one is not traced to it. */
  lemma KeyInFieldIsMissed(p: Ssa, budget: int)
    requires p == Ssa(map[0 := Alloc, 1 := FieldAddr(0), 2 := Const(true), 3 := Store(1, 2), 4 := FieldAddr(0), 5 := Unary(4)],
                      map[0 := [1, 4], 1 := [3], 2 := [3], 4 := [5]])
    ensures Base(p, p.At(3).addr) == 0 && Base(p, p.At(5).x) == 0 && p.At(p.At(3).val) == Const(true)
    ensures Walk(Backward(p), 5, budget, {}).0.None?
  {
    assert p.Refs(0) == [1, 4];
    AllocationFeedsExactly(p, 0);
    TracedReaches(p, 0);
    if Reaches(Backward(p), 5) { OneFeed(p, 5, 4); OneFeed(p, 4, 0); }
    WalkSound(Backward(p), 5, budget, {});
  }

  lemma OneFeed(p: Ssa, v: V, x: V)
    requires Feeds(p, v) == [Go(x)] && Reaches(Backward(p), v)
    ensures Reaches(Backward(p), x)
  {
    var g := Backward(p);
    var w, path :| PathTo(g, v, w, path);
    assert |path| > 1 && Go(path[0 + 1]) in g(path[0]);
    forall i | 0 <= i < |path[1..]| - 1 ensures Go(path[1..][i + 1]) in g(path[1..][i]) {
      assert Go(path[i + 1 + 1]) in g(path[i + 1]);
    }
    assert PathTo(g, x, w, path[1..]);
  }
}
