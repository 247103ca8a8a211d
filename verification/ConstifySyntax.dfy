/** The fragment of Rust that fiat-crypto emits and fiat-constify rewrites: type aliases and
    functions whose bodies are straight-line code. */
module ConstifySyntax {
  import opened OrderedMap

  type Ident = Key

  datatype Type =
    | Path(name: Ident)
    | Array(elem: Type, len: nat)
    | OtherType

  datatype Param =
    | ByValue(name: Ident, ty: Type)
    | ByMutRef(name: Ident, ty: Type)

  datatype Expr =
    | Lit(n: int)
    | Fill(n: int, len: nat)                // [n; len]
    | Var(x: Ident)
    | Deref(x: Ident)                       // *x
    | Index(x: Ident, i: nat)               // x[i]
    | Op(op: Ident, left: Expr, right: Expr)

  datatype Place =
    | PlaceVar(x: Ident)
    | PlaceDeref(x: Ident)                  // *x
    | PlaceIndex(x: Ident, i: nat)          // x[i]

  datatype Arg =
    | MutRef(target: Place)                 // &mut place
    | Plain(e: Expr)

  datatype Stmt =
    | Let(x: Ident, e: Expr)
    | Assign(place: Place, e: Expr)
    | Call(f: Ident, args: seq<Arg>)
    | LetTuple(pat: seq<Ident>, f: Ident, es: seq<Expr>)  // let (pat) = f(es)

  /** `ret` and `result` are the types and the variables of the returned tuple; both are empty
      for a function that returns nothing. */
  datatype Fn = Fn(name: Ident, isConst: bool, params: seq<Param>, ret: seq<Type>,
                   body: seq<Stmt>, result: seq<Ident>)

  datatype Item =
    | FnItem(fn: Fn)
    | TypeItem(name: Ident, ty: Type)
    | OtherItem

  type Registry = map<Ident, Type>

  function Names(params: seq<Param>): (ns: seq<Ident>)
    ensures |ns| == |params|
    ensures forall i :: 0 <= i < |params| ==> ns[i] == params[i].name
  {
    seq(|params|, i requires 0 <= i < |params| => params[i].name)
  }

  function Inputs(params: seq<Param>): seq<Param> {
    if params == [] then []
    else (if params[0].ByValue? then [params[0]] else []) + Inputs(params[1..])
  }

  function MutParams(params: seq<Param>): (r: seq<Param>)
    ensures forall p :: p in r ==> p.ByMutRef? && p in params
  {
    if params == [] then []
    else (if params[0].ByMutRef? then [params[0]] else []) + MutParams(params[1..])
  }

  /** The names of the `&mut` parameters, in the order of the signature. */
  function OutNames(params: seq<Param>): seq<Ident> {
    Names(MutParams(params))
  }

  lemma FirstOutName(params: seq<Param>)
    requires params != []
    ensures OutNames(params)
            == if params[0].ByMutRef? then [params[0].name] + OutNames(params[1..]) else OutNames(params[1..])
  {
  }

  function PlainArgs(args: seq<Arg>): seq<Expr> {
    if args == [] then []
    else (if args[0].Plain? then [args[0].e] else []) + PlainArgs(args[1..])
  }

  /** The variables behind the `&mut` arguments of a call, in argument order. */
  function Targets(args: seq<Arg>): seq<Ident> {
    if args == [] then []
    else (if args[0].MutRef? then [args[0].target.x] else []) + Targets(args[1..])
  }

  predicate TargetsAreVars(args: seq<Arg>) {
    forall a :: a in args && a.MutRef? ==> a.target.PlaceVar?
  }
}
