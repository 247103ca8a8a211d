/** The rewrite of `fn` into `const fn`. The functions say what each step produces, the methods
    after them are the loops of the tool. */
module ConstifyRewrite {
  import opened Common
  import opened OrderedMap
  import opened ConstifySyntax

  datatype Panic =
    | DuplicateType
    | DuplicateOutput
    | NoOutputs
    | UnsupportedType
    | AliasCycle            // the recursion of `default_for` does not end
    | UnexpectedArgument

  type OrPanic<T> = Result<T, Panic>

  /** `u8`, `u32` and `u64`. */
  const PRIMITIVES: set<Ident> := {[117, 56], [117, 51, 50], [117, 54, 52]}

  /** The zero of a type. `seen` holds the aliases that have been expanded already. */
  function DefaultFor(ty: Type, reg: Registry, seen: set<Ident>): OrPanic<Expr>
    decreases reg.Keys - seen
  {
    match ty
    case Array(_, n) => Ok(Fill(0, n))
    case OtherType => Err(UnsupportedType)
    case Path(x) =>
      if x in reg then
        if x in seen then Err(AliasCycle) else DefaultFor(reg[x], reg, seen + {x})
      else if x in PRIMITIVES then Ok(Lit(0))
      else Err(UnsupportedType)
  }

  function RewriteStmt(s: Stmt): OrPanic<Stmt> {
    match s
    case Assign(PlaceDeref(x), e) => Ok(Assign(PlaceVar(x), e))
    case Call(f, args) =>
      if TargetsAreVars(args) then Ok(LetTuple(Targets(args), f, PlainArgs(args)))
      else Err(UnexpectedArgument)
    case _ => Ok(s)
  }

  function RewriteStmts(body: seq<Stmt>): OrPanic<seq<Stmt>> {
    if body == [] then Ok([])
    else
      var s := RewriteStmt(body[0]);
      if s.Err? then Err(s.error)
      else
        var rest := RewriteStmts(body[1..]);
        if rest.Err? then rest else Ok([s.value] + rest.value)
  }

  /** The outputs of a signature, as an ordered map from their names to their types. */
  function OutputsOf(params: seq<Param>, from: seq<(Key, Type)>): OrPanic<seq<(Key, Type)>> {
    if params == [] then Ok(from)
    else if params[0].ByValue? then OutputsOf(params[1..], from)
    else if Get(from, params[0].name).Some? then Err(DuplicateOutput)
    else OutputsOf(params[1..], Insert(from, params[0].name, params[0].ty))
  }

  /** `let mut x: ty = <zero>` for every output, in the order of the map. */
  function LetBindings(outputs: seq<(Key, Type)>, reg: Registry): OrPanic<seq<Stmt>> {
    if outputs == [] then Ok([])
    else
      var e := DefaultFor(outputs[0].1, reg, {});
      if e.Err? then Err(e.error)
      else
        var rest := LetBindings(outputs[1..], reg);
        if rest.Err? then rest else Ok([Let(outputs[0].0, e.value)] + rest.value)
  }

  function ReturnTypes(outputs: seq<(Key, Type)>): (tys: seq<Type>)
    ensures |tys| == |outputs| && forall i :: 0 <= i < |tys| ==> tys[i] == outputs[i].1
  {
    seq(|outputs|, i requires 0 <= i < |outputs| => outputs[i].1)
  }

  function RewriteFn(fn: Fn, reg: Registry): OrPanic<Fn> {
    var outputs := OutputsOf(fn.params, []);
    if outputs.Err? then Err(outputs.error)
    else if outputs.value == [] then Err(NoOutputs)
    else
      var lets := LetBindings(outputs.value, reg);
      if lets.Err? then Err(lets.error)
      else
        var body := RewriteStmts(fn.body);
        if body.Err? then Err(body.error)
        else Ok(Fn(fn.name, true, Inputs(fn.params), ReturnTypes(outputs.value),
                   lets.value + body.value, Keys(outputs.value)))
  }

  /** The whole file: an alias is visible to the functions after it. */
  function RewriteItems(items: seq<Item>, reg: Registry): OrPanic<seq<Item>> {
    if items == [] then Ok([])
    else match items[0]
      case TypeItem(x, ty) =>
        if x in reg then Err(DuplicateType)
        else
          var rest := RewriteItems(items[1..], reg[x := ty]);
          if rest.Err? then rest else Ok([items[0]] + rest.value)
      case FnItem(fn) =>
        var fn' := RewriteFn(fn, reg);
        if fn'.Err? then Err(fn'.error)
        else
          var rest := RewriteItems(items[1..], reg);
          if rest.Err? then rest else Ok([FnItem(fn'.value)] + rest.value)
      case OtherItem =>
        var rest := RewriteItems(items[1..], reg);
        if rest.Err? then rest else Ok([items[0]] + rest.value)
  }

  lemma {:induction false} OutputsOfIncreasing(params: seq<Param>, from: Map<Type>)
    ensures var r := OutputsOf(params, from); r.Ok? ==> Increasing(Keys(r.value))
    decreases |params|
  {
    if params != [] {
      if params[0].ByValue? {
        OutputsOfIncreasing(params[1..], from);
      } else {
        InsertIncreasing(from, params[0].name, params[0].ty);
        OutputsOfIncreasing(params[1..], Insert(from, params[0].name, params[0].ty));
      }
    }
  }

  // ----- the loops of the tool -----

  /** `Outputs::add`. */
  method AddOutput(outputs: Map<Type>, name: Ident, ty: Type) returns (r: OrPanic<Map<Type>>)
    ensures r.Ok? <==> name !in Keys(outputs)
    ensures r.Ok? ==> r.value == Insert(outputs, name, ty)
    ensures r.Err? ==> r.error == DuplicateOutput
  {
    GetKeys(outputs, name);
    InsertIncreasing(outputs, name, ty);
    if Get(outputs, name).Some? {
      return Err(DuplicateOutput);
    }
    return Ok(Insert(outputs, name, ty));
  }

  lemma TargetsAppend(args: seq<Arg>, a: Arg)
    ensures TargetsAreVars(args + [a]) <==> TargetsAreVars(args) && (a.MutRef? ==> a.target.PlaceVar?)
  {
    assert forall b :: b in args + [a] <==> b in args || b == a;
  }

  lemma NotAllVars(args: seq<Arg>, i: nat)
    requires i < |args| && args[i].MutRef? && !args[i].target.PlaceVar?
    ensures !TargetsAreVars(args)
  {
    assert args[i] in args;
  }

  lemma NoArgs()
    ensures TargetsAreVars([]) && Targets([]) == [] && PlainArgs([]) == []
  {
  }

  lemma FirstArg(args: seq<Arg>)
    requires args != []
    ensures Targets(args) == if args[0].MutRef? then [args[0].target.x] + Targets(args[1..]) else Targets(args[1..])
    ensures PlainArgs(args) == if args[0].Plain? then [args[0].e] + PlainArgs(args[1..]) else PlainArgs(args[1..])
  {
  }

  /** `rewrite_fn_call`: a single pass that splits the arguments. */
  method RewriteFnCall(f: Ident, args: seq<Arg>) returns (r: OrPanic<Stmt>)
    ensures r == RewriteStmt(Call(f, args))
  {
    hide TargetsAreVars, Targets, PlainArgs;
    NoArgs();
    assert args[..0] == [] && args[0..] == args;
    assert [] + Targets(args) == Targets(args) && [] + PlainArgs(args) == PlainArgs(args);
    var plain: seq<Expr> := [];
    var output: seq<Ident> := [];
    var i := 0;
    while i < |args|
      invariant 0 <= i <= |args|
      invariant TargetsAreVars(args[..i])
      invariant output + Targets(args[i..]) == Targets(args)
      invariant plain + PlainArgs(args[i..]) == PlainArgs(args)
    {
      assert args[i..][1..] == args[i + 1..];
      assert args[..i + 1] == args[..i] + [args[i]];
      TargetsAppend(args[..i], args[i]);
      FirstArg(args[i..]);
      match args[i] {
        case MutRef(target) =>
          if !target.PlaceVar? {
            NotAllVars(args, i);
            return Err(UnexpectedArgument);
          }
          Assoc(output, [target.x], Targets(args[i + 1..]));
          output := output + [target.x];
        case Plain(e) =>
          Assoc(plain, [e], PlainArgs(args[i + 1..]));
          plain := plain + [e];
      }
      i := i + 1;
    }
    assert args[..i] == args && args[i..] == [];
    assert output + [] == output && plain + [] == plain;
    return Ok(LetTuple(output, f, plain));
  }

  /** `rewrite_fn_stmt`. */
  method RewriteFnStmt(stmt: Stmt) returns (r: OrPanic<Stmt>)
    ensures r == RewriteStmt(stmt)
  {
    match stmt {
      case Assign(PlaceDeref(x), e) => r := Ok(Assign(PlaceVar(x), e));
      case Call(f, args) => r := RewriteFnCall(f, args);
      case _ => r := Ok(stmt);
    }
  }

  lemma {:induction false} RewriteStmtsAppend(a: seq<Stmt>, s: Stmt)
    ensures RewriteStmts(a).Err? ==> RewriteStmts(a + [s]) == RewriteStmts(a)
    ensures RewriteStmts(a).Ok? && RewriteStmt(s).Err? ==>
              RewriteStmts(a + [s]) == Err(RewriteStmt(s).error)
    ensures RewriteStmts(a).Ok? && RewriteStmt(s).Ok? ==>
              RewriteStmts(a + [s]) == Ok(RewriteStmts(a).value + [RewriteStmt(s).value])
  {
    if a == [] {
      assert a + [s] == [s] && [s][1..] == [];
      if RewriteStmt(s).Ok? {
        var v := RewriteStmt(s).value;
        assert RewriteStmts([s]).value == [v] && RewriteStmts(a).value + [v] == [v];
      }
    } else {
      RewriteStmtsAppend(a[1..], s);
      assert (a + [s])[1..] == a[1..] + [s];
      if RewriteStmts(a).Ok? && RewriteStmt(s).Ok? {
        assert RewriteStmts(a + [s]).value == RewriteStmts(a).value + [RewriteStmt(s).value];
      }
    }
  }

  lemma {:induction false} RewriteStmtsPanicPrefix(a: seq<Stmt>, b: seq<Stmt>)
    requires RewriteStmts(a).Err?
    ensures RewriteStmts(a + b) == RewriteStmts(a)
  {
    assert (a + b)[1..] == a[1..] + b;
    if RewriteStmt(a[0]).Ok? {
      RewriteStmtsPanicPrefix(a[1..], b);
    }
  }

  /** `rewrite_fn_body`. */
  method RewriteFnBody(statements: seq<Stmt>, outputs: Map<Type>, reg: Registry)
    returns (r: OrPanic<seq<Stmt>>)
    ensures LetBindings(outputs, reg).Err? ==> r == LetBindings(outputs, reg)
    ensures LetBindings(outputs, reg).Ok? && RewriteStmts(statements).Err? ==>
              r == RewriteStmts(statements)
    ensures LetBindings(outputs, reg).Ok? && RewriteStmts(statements).Ok? ==>
              r == Ok(LetBindings(outputs, reg).value + RewriteStmts(statements).value)
  {
    assert RewriteStmts([]) == Ok([]);
    hide LetBindings, RewriteStmt, RewriteStmts;
    var lets := LetBindings(outputs, reg);
    if lets.Err? {
      return lets;
    }
    var stmts := lets.value;
    var i := 0;
    assert statements[..0] == [] && stmts + [] == stmts;
    while i < |statements|
      invariant 0 <= i <= |statements|
      invariant RewriteStmts(statements[..i]).Ok?
      invariant stmts == lets.value + RewriteStmts(statements[..i]).value
    {
      var s := RewriteFnStmt(statements[i]);
      RewriteStmtsAppend(statements[..i], statements[i]);
      assert statements[..i + 1] == statements[..i] + [statements[i]];
      if s.Err? {
        RewriteStmtsPanicPrefix(statements[..i + 1], statements[i + 1..]);
        assert statements == statements[..i + 1] + statements[i + 1..];
        return Err(s.error);
      }
      Assoc(lets.value, RewriteStmts(statements[..i]).value, [s.value]);
      stmts := stmts + [s.value];
      i := i + 1;
    }
    assert statements[..i] == statements;
    return Ok(stmts);
  }

  lemma FirstParam(params: seq<Param>, outputs: seq<(Key, Type)>)
    requires params != []
    ensures Inputs(params) == if params[0].ByValue? then [params[0]] + Inputs(params[1..]) else Inputs(params[1..])
    ensures OutputsOf(params, outputs) ==
              if params[0].ByValue? then OutputsOf(params[1..], outputs)
              else if params[0].name in Keys(outputs) then Err(DuplicateOutput)
              else OutputsOf(params[1..], Insert(outputs, params[0].name, params[0].ty))
  {
    GetKeys(outputs, params[0].name);
  }

  lemma NoParams(outputs: seq<(Key, Type)>)
    ensures Inputs([]) == [] && OutputsOf([], outputs) == Ok(outputs)
  {
  }

  /** `rewrite_fn_as_const`. */
  method RewriteFnAsConst(fn: Fn, reg: Registry) returns (r: OrPanic<Fn>)
    ensures r == RewriteFn(fn, reg)
  {
    hide Inputs, OutputsOf, Insert;
    var inputs: seq<Param> := [];
    var outputs: Map<Type> := [];
    var i := 0;
    assert fn.params[0..] == fn.params && [] + Inputs(fn.params) == Inputs(fn.params);
    while i < |fn.params|
      invariant 0 <= i <= |fn.params|
      invariant inputs + Inputs(fn.params[i..]) == Inputs(fn.params)
      invariant OutputsOf(fn.params[i..], outputs) == OutputsOf(fn.params, [])
    {
      assert fn.params[i..][1..] == fn.params[i + 1..];
      var arg := fn.params[i];
      FirstParam(fn.params[i..], outputs);
      if arg.ByMutRef? {
        var added := AddOutput(outputs, arg.name, arg.ty);
        if added.Err? {
          return Err(added.error);
        }
        outputs := added.value;
      } else {
        Assoc(inputs, [arg], Inputs(fn.params[i + 1..]));
        inputs := inputs + [arg];
      }
      i := i + 1;
    }
    NoParams(outputs);
    assert fn.params[i..] == [] && inputs + [] == inputs;
    if outputs == [] {
      return Err(NoOutputs);
    }
    var body := RewriteFnBody(fn.body, outputs, reg);
    if body.Err? {
      return Err(body.error);
    }
    return Ok(Fn(fn.name, true, inputs, ReturnTypes(outputs), body.value, Keys(outputs)));
  }

  lemma FirstItem(items: seq<Item>, reg: Registry)
    requires items != []
    ensures RewriteItems(items, reg) == match items[0]
              case TypeItem(x, ty) =>
                if x in reg then Err(DuplicateType) else Prepend([items[0]], RewriteItems(items[1..], reg[x := ty]))
              case FnItem(fn) =>
                var fn' := RewriteFn(fn, reg);
                if fn'.Err? then Err(fn'.error) else Prepend([FnItem(fn'.value)], RewriteItems(items[1..], reg))
              case OtherItem => Prepend([items[0]], RewriteItems(items[1..], reg))
  {
    hide RewriteFn;
  }

  lemma NoItems(reg: Registry)
    ensures RewriteItems([], reg) == Ok([])
  {
  }

  /** The loop of `main` over the items of the file. */
  method RewriteFile(items: seq<Item>) returns (r: OrPanic<seq<Item>>)
    ensures r == RewriteItems(items, map[])
  {
    hide RewriteFn, RewriteItems, Prepend;
    var reg: Registry := map[];
    var done: seq<Item> := [];
    var i := 0;
    ghost var whole := RewriteItems(items, map[]);
    assert items[0..] == items;
    PrependNothing(whole);
    while i < |items|
      invariant 0 <= i <= |items|
      invariant whole == Prepend(done, RewriteItems(items[i..], reg))
    {
      assert items[i..][1..] == items[i + 1..];
      FirstItem(items[i..], reg);
      var next := items[i];
      match items[i] {
        case FnItem(fn) =>
          var fn' := RewriteFnAsConst(fn, reg);
          if fn'.Err? {
            PrependError<Item, Panic>(done, fn'.error);
            return Err(fn'.error);
          }
          next := FnItem(fn'.value);
        case TypeItem(x, ty) =>
          if x in reg {
            PrependError<Item, Panic>(done, DuplicateType);
            return Err(DuplicateType);
          }
          reg := reg[x := ty];
        case OtherItem =>
      }
      PrependTwice(done, [next], RewriteItems(items[i + 1..], reg));
      done := done + [next];
      i := i + 1;
    }
    NoItems(reg);
    assert items[i..] == [];
    PrependLast<Item, Panic>(done);
    return Ok(done);
  }
}
