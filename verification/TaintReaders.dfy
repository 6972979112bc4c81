/** The two readers of expressions: `isExprTainted`, behind assignments, composite
  literals, binding and sinks, and `isArgTainted`, behind the propagators. */
module TaintReaders {
  import opened Options
  import opened TaintSyntax
  import opened TaintRules

  /** What makes an expression tainted: an object, or the result of a function. */
  datatype Atom = OfObj(o: Obj) | OfFn(fn: Fn)

  predicate Holds(a: Atom, f: Facts) {
    match a
    case OfObj(o) => o in f.tainted
    case OfFn(fn) => fn in f.outputs
  }

  function ObjectAtoms(os: set<Obj>): set<Atom> {
    set o | o in os :: OfObj(o)
  }

  function IdAtoms(info: Info, id: Id): set<Atom> {
    ObjectAtoms((if id in info.uses then {info.uses[id]} else {}) + (if id in info.defs then {info.defs[id]} else {}))
  }

  function SelectorAtoms(info: Info, self: Id, sel: Id): set<Atom> {
    ObjectAtoms((if self in info.selections then {info.selections[self]} else {}) +
                (if sel in info.uses then {info.uses[sel]} else {}))
  }

  function CallAtoms(info: Info, fun: Node): set<Atom> {
    if Callee(info, fun).Some? then {OfFn(Callee(info, fun).value)} else {}
  }

  /** The element value a reader looks at. */
  function Value(e: Node): (v: Node)
    ensures v == e || v < e
  {
    if e.KeyValue? then e.value else e
  }

  /** What the engine's reader can see in `n`. */
  function EngineAtoms(info: Info, n: Node): set<Atom>
    decreases n
  {
    match n
    case Ident(id) => IdAtoms(info, id)
    case Selector(self, x, sel) => SelectorAtoms(info, self, sel) + EngineAtoms(info, x)
    case Unary(_, x) => EngineAtoms(info, x)
    case Paren(x) => EngineAtoms(info, x)
    case Star(x) => EngineAtoms(info, x)
    case Index(x, _) => EngineAtoms(info, x)
    case Composite(_, elts) => set i, a | 0 <= i < |elts| && a in EngineAtoms(info, Value(elts[i])) :: a
    case Call(fun, args) => CallAtoms(info, fun) + set i, a | 0 <= i < |args| && a in EngineAtoms(info, args[i]) :: a
    case _ => {}
  }

  /** What the propagators' reader can see in `n`. */
  function CatalogAtoms(info: Info, n: Node): set<Atom>
    decreases n
  {
    match n
    case Ident(id) => IdAtoms(info, id)
    case Selector(self, x, sel) => SelectorAtoms(info, self, sel) + CatalogAtoms(info, x)
    case Unary(_, x) => CatalogAtoms(info, x)
    case Paren(x) => CatalogAtoms(info, x)
    case Star(x) => CatalogAtoms(info, x)
    case Binary(add, x, y) => if add then CatalogAtoms(info, x) + CatalogAtoms(info, y) else {}
    case Composite(_, elts) => set i, a | 0 <= i < |elts| && a in CatalogAtoms(info, Value(elts[i])) :: a
    case Call(fun, args) => CallAtoms(info, fun) + set i, a | 0 <= i < |args| && a in CatalogAtoms(info, args[i]) :: a
    case _ => {}
  }

  predicate SomeHolds(atoms: set<Atom>, f: Facts) {
    exists a | a in atoms :: Holds(a, f)
  }

  lemma ObjectsHold(os: set<Obj>, f: Facts)
    ensures SomeHolds(ObjectAtoms(os), f) <==> exists o | o in os :: o in f.tainted
  {
    if o :| o in os && o in f.tainted { assert OfObj(o) in ObjectAtoms(os) && Holds(OfObj(o), f); }
  }

  lemma IdHolds(info: Info, id: Id, f: Facts)
    ensures SomeHolds(IdAtoms(info, id), f) <==> IdTainted(info, id, f.tainted)
  {
    ObjectsHold((if id in info.uses then {info.uses[id]} else {}) + (if id in info.defs then {info.defs[id]} else {}), f);
  }

  lemma SelectorHolds(info: Info, self: Id, sel: Id, f: Facts)
    ensures SomeHolds(SelectorAtoms(info, self, sel), f) <==> SelectorTainted(info, self, sel, f.tainted)
  {
    ObjectsHold((if self in info.selections then {info.selections[self]} else {}) +
                (if sel in info.uses then {info.uses[sel]} else {}), f);
  }

  lemma CallHolds(info: Info, fun: Node, f: Facts)
    ensures SomeHolds(CallAtoms(info, fun), f) <==> CallReturnsTaint(info, fun, f)
  {
    if CallReturnsTaint(info, fun, f) {
      assert OfFn(Callee(info, fun).value) in CallAtoms(info, fun) && Holds(OfFn(Callee(info, fun).value), f);
    }
  }

  lemma UnionHolds(a: set<Atom>, b: set<Atom>, f: Facts)
    ensures SomeHolds(a + b, f) <==> SomeHolds(a, f) || SomeHolds(b, f)
  {
    if SomeHolds(a, f) { var x :| x in a && Holds(x, f); assert x in a + b; }
    if SomeHolds(b, f) { var x :| x in b && Holds(x, f); assert x in a + b; }
  }

  lemma {:induction false} EngineReads(info: Info, n: Node, f: Facts)
    ensures ExprTainted(info, n, f) <==> SomeHolds(EngineAtoms(info, n), f)
    decreases n
  {
    match n
    case Ident(id) => IdHolds(info, id, f);
    case Selector(self, x, sel) =>
      SelectorHolds(info, self, sel, f);
      EngineReads(info, x, f);
      UnionHolds(SelectorAtoms(info, self, sel), EngineAtoms(info, x), f);
    case Unary(_, x) => EngineReads(info, x, f);
    case Paren(x) => EngineReads(info, x, f);
    case Star(x) => EngineReads(info, x, f);
    case Index(x, _) => EngineReads(info, x, f);
    case Composite(_, elts) =>
      forall i | 0 <= i < |elts| ensures ExprTainted(info, Value(elts[i]), f) <==> SomeHolds(EngineAtoms(info, Value(elts[i])), f) {
        EngineReads(info, Value(elts[i]), f);
      }
      var parts := seq(|elts|, i requires 0 <= i < |elts| => EngineAtoms(info, Value(elts[i])));
      assert forall i | 0 <= i < |parts| :: parts[i] == EngineAtoms(info, Value(elts[i]));
      PartHolds(parts, EngineAtoms(info, n), f);
    case Call(fun, args) =>
      forall i | 0 <= i < |args| { EngineReads(info, args[i], f); }
      var rest := set i, a | 0 <= i < |args| && a in EngineAtoms(info, args[i]) :: a;
      var parts := seq(|args|, i requires 0 <= i < |args| => EngineAtoms(info, args[i]));
      assert forall i | 0 <= i < |parts| :: parts[i] == EngineAtoms(info, args[i]);
      PartHolds(parts, rest, f);
      CallHolds(info, fun, f);
      UnionHolds(CallAtoms(info, fun), rest, f);
    case _ =>
  }

  /** `all` is the union of `parts`. */
  predicate Joins(parts: seq<set<Atom>>, all: set<Atom>) {
    (forall i | 0 <= i < |parts| :: parts[i] <= all) && forall a | a in all :: exists i | 0 <= i < |parts| :: a in parts[i]
  }

  lemma PartHolds(parts: seq<set<Atom>>, all: set<Atom>, f: Facts)
    requires Joins(parts, all)
    ensures SomeHolds(all, f) <==> exists i | 0 <= i < |parts| :: SomeHolds(parts[i], f)
  {
    if i :| 0 <= i < |parts| && SomeHolds(parts[i], f) {
      var a :| a in parts[i] && Holds(a, f);
      assert a in all;
    }
    if SomeHolds(all, f) {
      var a :| a in all && Holds(a, f);
      var i :| 0 <= i < |parts| && a in parts[i];
      assert SomeHolds(parts[i], f);
    }
  }

  lemma {:induction false} CatalogReads(info: Info, n: Node, f: Facts)
    ensures ArgTainted(info, n, f) <==> SomeHolds(CatalogAtoms(info, n), f)
    decreases n
  {
    match n
    case Ident(id) => IdHolds(info, id, f);
    case Selector(self, x, sel) =>
      SelectorHolds(info, self, sel, f);
      CatalogReads(info, x, f);
      UnionHolds(SelectorAtoms(info, self, sel), CatalogAtoms(info, x), f);
    case Unary(_, x) => CatalogReads(info, x, f);
    case Paren(x) => CatalogReads(info, x, f);
    case Star(x) => CatalogReads(info, x, f);
    case Binary(_, x, y) =>
      CatalogReads(info, x, f);
      CatalogReads(info, y, f);
      UnionHolds(CatalogAtoms(info, x), CatalogAtoms(info, y), f);
    case Composite(_, elts) =>
      forall i | 0 <= i < |elts| ensures ArgTainted(info, Value(elts[i]), f) <==> SomeHolds(CatalogAtoms(info, Value(elts[i])), f) {
        CatalogReads(info, Value(elts[i]), f);
      }
      var parts := seq(|elts|, i requires 0 <= i < |elts| => CatalogAtoms(info, Value(elts[i])));
      assert forall i | 0 <= i < |parts| :: parts[i] == CatalogAtoms(info, Value(elts[i]));
      PartHolds(parts, CatalogAtoms(info, n), f);
    case Call(fun, args) =>
      forall i | 0 <= i < |args| { CatalogReads(info, args[i], f); }
      var rest := set i, a | 0 <= i < |args| && a in CatalogAtoms(info, args[i]) :: a;
      var parts := seq(|args|, i requires 0 <= i < |args| => CatalogAtoms(info, args[i]));
      assert forall i | 0 <= i < |parts| :: parts[i] == CatalogAtoms(info, args[i]);
      PartHolds(parts, rest, f);
      CallHolds(info, fun, f);
      UnionHolds(CallAtoms(info, fun), rest, f);
    case _ =>
  }

  function Only(a: Atom): Facts {
    match a
    case OfObj(o) => Facts({o}, {}, {})
    case OfFn(fn) => Facts({}, {fn}, {})
  }

  lemma OnlyHolds(atoms: set<Atom>, a: Atom)
    ensures SomeHolds(atoms, Only(a)) <==> a in atoms
  {
    if a in atoms { assert Holds(a, Only(a)); }
    if SomeHolds(atoms, Only(a)) {
      var b :| b in atoms && Holds(b, Only(a));
      assert b == a;
    }
  }

  predicate SameReading(info: Info, n: Node, f: Facts) {
    ExprTainted(info, n, f) <==> ArgTainted(info, n, f)
  }

  /** The two readers agree on an expression in every state if and only if the same
      objects and functions can taint it for both. */
  lemma ReadersAgreeExactly(info: Info, n: Node)
    ensures (forall f: Facts :: SameReading(info, n, f)) <==> EngineAtoms(info, n) == CatalogAtoms(info, n)
  {
    var e, c := EngineAtoms(info, n), CatalogAtoms(info, n);
    if e == c {
      forall f: Facts ensures SameReading(info, n, f) {
        EngineReads(info, n, f);
        CatalogReads(info, n, f);
      }
    } else {
      var a :| a in e + c && !(a in e && a in c);
      EngineReads(info, n, Only(a));
      CatalogReads(info, n, Only(a));
      OnlyHolds(e, a);
      OnlyHolds(c, a);
      assert !SameReading(info, n, Only(a));
    }
  }

  /** So a concatenation splits the readers exactly when anything at all can taint an
      operand for the propagators, and an index expression exactly when anything can
      taint the indexed value for the engine. */
  lemma WhereReadersSplit(info: Info, x: Node, y: Node)
    ensures (forall f: Facts :: SameReading(info, Binary(true, x, y), f)) <==>
      CatalogAtoms(info, x) == {} && CatalogAtoms(info, y) == {}
    ensures (forall f: Facts :: SameReading(info, Index(x, y), f)) <==> EngineAtoms(info, x) == {}
  {
    ReadersAgreeExactly(info, Binary(true, x, y));
    ReadersAgreeExactly(info, Index(x, y));
  }

  /** `src + clean`: tainted for a propagator, clean for assignments and sinks. */
  lemma ConcatenationSplits(info: Info, f: Facts)
    requires info == Info(map[0 := Var(0), 1 := Var(1)], map[], map[], map[]) && f == Facts({Var(0)}, {}, {})
    ensures ArgTainted(info, Binary(true, Ident(0), Ident(1)), f) && !ExprTainted(info, Binary(true, Ident(0), Ident(1)), f)
  {
    assert ArgTainted(info, Ident(0), f);
  }
}
