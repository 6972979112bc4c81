/** Go syntax and type facts, reduced to what the taint engine inspects.

  A node is a `go/ast` node.  `Id` stands for the pointer identity of an
  identifier or selector node, the key of the type checker's tables; `Fn` and
  `Obj` stand for the identity of a `*types.Func` and a `types.Object`. */
module TaintSyntax {
  import opened Options

  type Id = nat
  type Fn = nat

  datatype Obj = Var(v: nat) | Func(f: Fn) | OtherObj(o: nat)

  datatype Node =
    | Ident(id: Id)
    | StringLit(text: string)
    | Selector(self: Id, x: Node, sel: Id)
    | Unary(addrOf: bool, x: Node)
    | Paren(x: Node)
    | Star(x: Node)
    | Index(x: Node, index: Node)
    | Binary(add: bool, x: Node, y: Node)
    | KeyValue(key: Node, value: Node)
    | Composite(typ: seq<Node>, elts: seq<Node>)
    | Call(fun: Node, args: seq<Node>)
    | Assign(lhs: seq<Node>, rhs: seq<Node>)
    | Return(results: seq<Node>)
    | FuncDecl(recv: seq<Id>, name: Id, rest: seq<Node>)
    | FuncLit(params: seq<Id>, body: seq<Node>)
    | Tree(parts: seq<Node>)  // any other node

  /** The sub-nodes in the order `ast.Walk` visits them, without the bare
      identifiers of a selector, a function header or a parameter list. */
  function Kids(n: Node): (ks: seq<Node>)
    ensures forall k :: k in ks ==> k < n
  {
    match n
    case Ident(_) => []
    case StringLit(_) => []
    case Selector(_, x, _) => [x]
    case Unary(_, x) => [x]
    case Paren(x) => [x]
    case Star(x) => [x]
    case Index(x, index) => [x, index]
    case Binary(_, x, y) => [x, y]
    case KeyValue(key, value) => [key, value]
    case Composite(typ, elts) => typ + elts
    case Call(fun, args) => [fun] + args
    case Assign(lhs, rhs) => lhs + rhs
    case Return(results) => results
    case FuncDecl(_, _, rest) => rest
    case FuncLit(_, body) => body
    case Tree(parts) => parts
  }

  /** Bare identifiers visited before and after the kids. */
  function IdentsBefore(n: Node): nat {
    match n
    case FuncDecl(recv, _, _) => |recv| + 1
    case FuncLit(params, _) => |params|
    case _ => 0
  }

  function IdentsAfter(n: Node): nat {
    if n.Selector? then 1 else 0
  }

  /** `types.Info` of one package. `structFields` maps an expression to the
      fields of the struct it denotes (through a pointer), for body decoders. */
  datatype Info = Info(uses: map<Id, Obj>, defs: map<Id, Obj>, selections: map<Id, Obj>,
                       structFields: map<Node, seq<Obj>>)
  {
    function ObjectOf(id: Id): Option<Obj> {
      if id in defs then Some(defs[id]) else if id in uses then Some(uses[id]) else None
    }
  }

  datatype Passthrough = Passthrough(onReceiver: bool, reverseFlow: bool)
  datatype GinRole = GinSet | GinGet
  datatype Recovery = Recovery(arg: nat, variadic: bool, param: nat)

  /** What the engine's catalogs say about one function: its parameters,
      whether its receiver is an interface, and its rows in the source,
      propagator, gin and recovery tables. */
  datatype Signature = Signature(params: seq<Obj>, ifaceRecv: bool, source: Option<bool>,
                                 passthrough: Option<Passthrough>, gin: Option<GinRole>, recovery: Option<Recovery>)

  datatype File = File(info: Info, root: Node)
  datatype Program = Program(files: seq<File>, funcs: map<Fn, Signature>)
  {
    function Sig(f: Fn): Signature {
      if f in funcs then funcs[f] else Signature([], false, None, None, None, None)
    }
  }
}
