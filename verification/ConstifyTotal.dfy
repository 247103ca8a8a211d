/** Well-typed files whose functions call only earlier functions: every call has a meaning, before and
    after the rewrite. */
module ConstifyTotal {
  import opened Common
  import opened ConstifySyntax
  import opened ConstifyTypes
  import opened ConstifySemantics
  import opened ConstifyRewrite
  import opened ConstifyPreservation
  import opened ConstifyFile

  // ----- typing -----

  /** The layouts of the variables of a function. */
  datatype Env = Env(locals: map<Ident, Shape>, refs: map<Ident, Shape>)

  datatype ArgShape = ValueOf(sh: Shape) | RefTo(sh: Shape)

  type Sig = seq<ArgShape>

  function ShapeAt(env: Env, x: Ident): Option<Shape> {
    if x in env.locals then Some(env.locals[x]) else if x in env.refs then Some(env.refs[x]) else None
  }

  function ExprShape(e: Expr, env: Env): Option<Shape> {
    match e
    case Lit(_) => Some(ScalarShape)
    case Fill(_, len) => Some(ArrayShape(len))
    case Var(x) => if x in env.locals then Some(env.locals[x]) else None
    case Deref(x) => if x !in env.locals && x in env.refs then Some(env.refs[x]) else None
    case Index(x, i) =>
      var sh := ShapeAt(env, x);
      if sh.Some? && sh.value.ArrayShape? && i < sh.value.len then Some(ScalarShape) else None
    case Op(_, l, r) =>
      if ExprShape(l, env) == Some(ScalarShape) && ExprShape(r, env) == Some(ScalarShape)
      then Some(ScalarShape) else None
  }

  /** The layout that an assignment to a place demands. */
  function PlaceShape(place: Place, env: Env): Option<Shape> {
    match place
    case PlaceVar(x) => if x in env.locals then Some(env.locals[x]) else None
    case PlaceDeref(x) => if x !in env.locals && x in env.refs then Some(env.refs[x]) else None
    case PlaceIndex(x, i) => ExprShape(Index(x, i), env)
  }

  function ArgShapes(args: seq<Arg>, env: Env): Option<Sig> {
    if args == [] then Some([])
    else
      var rest := ArgShapes(args[1..], env);
      var a := match args[0]
        case Plain(e) =>
          var sh := ExprShape(e, env);
          if sh.Some? then Some(ValueOf(sh.value)) else None
        case MutRef(p) =>
          if p.PlaceVar? && p.x in env.locals then Some(RefTo(env.locals[p.x])) else None;
      if a.Some? && rest.Some? then Some([a.value] + rest.value) else None
  }

  function FindSig(sigs: seq<(Ident, Sig)>, f: Ident): Option<Sig> {
    if sigs == [] then None
    else if sigs[0].0 == f then Some(sigs[0].1)
    else FindSig(sigs[1..], f)
  }

  /** The layouts after a statement; none if it is not well-typed. */
  function StmtEnv(s: Stmt, env: Env, sigs: seq<(Ident, Sig)>): Option<Env> {
    match s
    case Let(x, e) =>
      var sh := ExprShape(e, env);
      if sh.Some? then Some(env.(locals := env.locals[x := sh.value])) else None
    case Assign(place, e) =>
      var sh := PlaceShape(place, env);
      if sh.Some? && ExprShape(e, env) == sh then Some(env) else None
    case Call(f, args) =>
      var sig := FindSig(sigs, f);
      if sig.Some? && ArgShapes(args, env) == sig && Distinct(Targets(args)) then Some(env) else None
    case LetTuple(_, _, _) => None
  }

  function BodyEnv(body: seq<Stmt>, env: Env, sigs: seq<(Ident, Sig)>): Option<Env>
    decreases |body|
  {
    if body == [] then Some(env)
    else
      var next := StmtEnv(body[0], env, sigs);
      if next.Some? then BodyEnv(body[1..], next.value, sigs) else None
  }

  predicate ParamFits(p: Param, s: ArgShape, reg: Registry) {
    if p.ByValue? then s.ValueOf? else s.RefTo? && ShapeOf(p.ty, reg) == Some(s.sh)
  }

  predicate ParamsFit(params: seq<Param>, sig: Sig, reg: Registry) {
    |params| == |sig| && forall i :: 0 <= i < |params| ==> ParamFits(params[i], sig[i], reg)
  }

  function EntryEnv(params: seq<Param>, sig: Sig): Env
    requires |params| == |sig|
  {
    if params == [] then Env(map[], map[])
    else
      var rest := EntryEnv(params[1..], sig[1..]);
      if params[0].ByValue? then rest.(locals := rest.locals[params[0].name := sig[0].sh])
      else rest.(refs := rest.refs[params[0].name := sig[0].sh])
  }

  predicate FnTyped(fn: Fn, sig: Sig, sigs: seq<(Ident, Sig)>, reg: Registry) {
    && ParamsFit(fn.params, sig, reg) && Distinct(Names(fn.params)) && fn.result == []
    && BodyEnv(fn.body, EntryEnv(fn.params, sig), sigs).Some?
  }

  function Earlier(fns: seq<Fn>, sigs: seq<Sig>, n: nat): (r: seq<(Ident, Sig)>)
    requires n <= |fns| == |sigs|
    ensures |r| == n && forall i :: 0 <= i < n ==> r[i] == (fns[i].name, sigs[i])
  {
    seq(n, i requires 0 <= i < n => (fns[i].name, sigs[i]))
  }

  /** Every function is well-typed and calls only functions before it. */
  predicate WellTyped(fns: seq<Fn>, sigs: seq<Sig>, reg: Registry) {
    && |fns| == |sigs|
    && (forall i, j :: 0 <= i < j < |fns| ==> fns[i].name != fns[j].name)
    && (forall i :: 0 <= i < |fns| ==> FnTyped(fns[i], sigs[i], Earlier(fns, sigs, i), reg))
  }

  // ----- values of the layouts -----

  predicate Fits(values: map<Ident, Value>, shapes: map<Ident, Shape>) {
    values.Keys == shapes.Keys && forall x :: x in values.Keys ==> HasShape(values[x], shapes[x])
  }

  predicate FrameFits(fr: Frame, env: Env) {
    Fits(fr.locals, env.locals) && Fits(fr.refs, env.refs) && fr.frozen == {}
  }

  predicate ArgFits(a: ArgVal, s: ArgShape) {
    (a.PassRef? <==> s.RefTo?) && HasShape(a.v, s.sh)
  }

  predicate ArgsFit(args: seq<ArgVal>, sig: Sig) {
    |args| == |sig| && forall i :: 0 <= i < |args| ==> ArgFits(args[i], sig[i])
  }

  lemma {:induction false} ExprRuns(prim: Prim, e: Expr, fr: Frame, env: Env)
    requires FrameFits(fr, env) && ExprShape(e, env).Some?
    ensures EvalExpr(prim, e, fr).Some? && HasShape(EvalExpr(prim, e, fr).value, ExprShape(e, env).value)
  {
    match e
    case Var(x) => assert x in fr.locals.Keys;
    case Deref(x) => assert x in fr.refs.Keys && x !in fr.locals.Keys;
    case Index(x, i) => assert x in fr.locals.Keys || (x in fr.refs.Keys && x !in fr.locals.Keys);
    case Op(_, l, r) =>
      ExprRuns(prim, l, fr, env);
      ExprRuns(prim, r, fr, env);
    case _ =>
  }

  lemma {:induction false} ArgsRun(prim: Prim, args: seq<Arg>, fr: Frame, env: Env)
    requires FrameFits(fr, env) && ArgShapes(args, env).Some?
    ensures EvalArgs(prim, args, fr).Some? && ArgsFit(EvalArgs(prim, args, fr).value, ArgShapes(args, env).value)
  {
    if args != [] {
      ArgsRun(prim, args[1..], fr, env);
      match args[0] {
        case Plain(e) =>
          ExprRuns(prim, e, fr, env);
        case MutRef(p) =>
          assert p.x in fr.locals.Keys;
      }
    }
  }

  lemma AssignRuns(fr: Frame, env: Env, place: Place, v: Value)
    requires FrameFits(fr, env) && PlaceShape(place, env).Some? && HasShape(v, PlaceShape(place, env).value)
    ensures Store(fr, place, v).Some? && FrameFits(Store(fr, place, v).value, env)
  {
    var x := place.x;
    assert x in fr.locals.Keys || (x in fr.refs.Keys && x !in fr.locals.Keys);
  }

  // ----- calls -----

  /** The layouts behind the references of a signature. */
  function RefShapes(sig: Sig): seq<Shape> {
    if sig == [] then [] else (if sig[0].RefTo? then [sig[0].sh] else []) + RefShapes(sig[1..])
  }

  lemma {:induction false} RefShapesOfParams(params: seq<Param>, sig: Sig, reg: Registry)
    requires ParamsFit(params, sig, reg)
    ensures |RefShapes(sig)| == |MutParams(params)|
    ensures forall k :: 0 <= k < |RefShapes(sig)| ==> ShapeOf(MutParams(params)[k].ty, reg) == Some(RefShapes(sig)[k])
  {
    hide ShapeOf;
    if params != [] {
      assert ParamFits(params[0], sig[0], reg);
      RefShapesOfParams(params[1..], sig[1..], reg);
    }
  }

  lemma {:induction false} RefShapesOfArgs(args: seq<Arg>, env: Env)
    requires ArgShapes(args, env).Some?
    ensures var shapes, xs := RefShapes(ArgShapes(args, env).value), Targets(args);
            |shapes| == |xs| && forall k :: 0 <= k < |xs| ==> xs[k] in env.locals && env.locals[xs[k]] == shapes[k]
  {
    NoArgs();
    assert RefShapes([]) == [];
    hide Targets, RefShapes, ExprShape;
    if args != [] {
      RefShapesOfArgs(args[1..], env);
      var sig := ArgShapes(args, env).value;
      assert sig[1..] == ArgShapes(args[1..], env).value;
      FirstRefShape(sig);
      FirstArg(args);
    }
  }

  lemma FirstRefShape(sig: Sig)
    requires sig != []
    ensures RefShapes(sig) == if sig[0].RefTo? then [sig[0].sh] + RefShapes(sig[1..]) else RefShapes(sig[1..])
  {
  }

  lemma {:induction false} BindFits(locals: map<Ident, Value>, xs: seq<Ident>, vs: seq<Value>,
                                    shapes: map<Ident, Shape>)
    requires Fits(locals, shapes) && |xs| == |vs|
    requires forall k :: 0 <= k < |xs| ==> xs[k] in shapes && HasShape(vs[k], shapes[xs[k]])
    ensures Fits(Bind(locals, xs, vs), shapes)
    decreases |xs|
  {
    hide HasShape;
    if xs != [] {
      BindFits(locals[xs[0] := vs[0]], xs[1..], vs[1..], shapes);
    }
  }

  /** A call that returns values of the declared layouts leaves the layouts of the caller alone. */
  lemma CallFits(fr: Frame, env: Env, args: seq<Arg>, params: seq<Param>, sig: Sig, reg: Registry, outs: seq<Value>)
    requires FrameFits(fr, env) && ArgShapes(args, env) == Some(sig)
    requires ParamsFit(params, sig, reg) && Typed(params, outs, reg)
    ensures |outs| == |Targets(args)|
    ensures FrameFits(fr.(locals := Bind(fr.locals, Targets(args), outs)), env)
  {
    RefShapesOfParams(params, sig, reg);
    RefShapesOfArgs(args, env);
    hide ShapeOf, ArgShapes, Targets, RefShapes, MutParams, Bind, ParamsFit;
    BindFits(fr.locals, Targets(args), outs, env.locals);
  }

  lemma {:induction false} EntryFits(params: seq<Param>, sig: Sig, args: seq<ArgVal>, reg: Registry)
    requires ParamsFit(params, sig, reg) && ArgsFit(args, sig)
    ensures BindParams(params, args, reg).Some? && FrameFits(BindParams(params, args, reg).value, EntryEnv(params, sig))
  {
    hide ShapeOf;
    if params != [] {
      assert ParamFits(params[0], sig[0], reg) && ArgFits(args[0], sig[0]);
      EntryFits(params[1..], sig[1..], args[1..], reg);
    }
  }

  lemma {:induction false} FindNamed(fns: seq<Fn>, i: nat)
    requires i < |fns| && forall j, k :: 0 <= j < k < |fns| ==> fns[j].name != fns[k].name
    ensures FindFn(fns, fns[i].name) == Some(fns[i])
  {
    if i > 0 {
      assert fns[0].name != fns[i].name;
      assert forall j, k :: 0 <= j < k < |fns[1..]| ==> fns[1..][j].name != fns[1..][k].name by {
        forall j, k | 0 <= j < k < |fns[1..]|
          ensures fns[1..][j].name != fns[1..][k].name
        {
          assert fns[j + 1].name != fns[k + 1].name;
        }
      }
      FindNamed(fns[1..], i - 1);
    }
  }

  lemma {:induction false} SigIsEarlier(sigs: seq<(Ident, Sig)>, f: Ident) returns (j: nat)
    requires FindSig(sigs, f).Some?
    ensures j < |sigs| && sigs[j] == (f, FindSig(sigs, f).value)
  {
    if sigs[0].0 == f {
      j := 0;
    } else {
      var k := SigIsEarlier(sigs[1..], f);
      j := k + 1;
    }
  }

  // ----- every call has a meaning -----

  lemma {:induction false} StmtRuns(pr: Program, sigs: seq<Sig>, prim: Prim, i: nat, s: Stmt, fr: Frame, env: Env)
    requires WellTyped(pr.fns, sigs, pr.reg) && i < |pr.fns| && FrameFits(fr, env)
    requires StmtEnv(s, env, Earlier(pr.fns, sigs, i)).Some?
    ensures ExecStmt(pr, prim, i, s, fr).Some?
    ensures FrameFits(ExecStmt(pr, prim, i, s, fr).value, StmtEnv(s, env, Earlier(pr.fns, sigs, i)).value)
    decreases i, 0, 2
  {
    match s {
      case Let(x, e) =>
        ExprRuns(prim, e, fr, env);
      case Assign(place, e) =>
        ExprRuns(prim, e, fr, env);
        AssignRuns(fr, env, place, EvalExpr(prim, e, fr).value);
      case Call(f, args) =>
        CallRuns(pr, sigs, prim, i, f, args, fr, env);
    }
  }

  lemma {:induction false} CallRuns(pr: Program, sigs: seq<Sig>, prim: Prim, i: nat, f: Ident, args: seq<Arg>,
                                    fr: Frame, env: Env)
    requires WellTyped(pr.fns, sigs, pr.reg) && i < |pr.fns| && FrameFits(fr, env)
    requires FindSig(Earlier(pr.fns, sigs, i), f).Some? && Distinct(Targets(args))
    requires ArgShapes(args, env) == FindSig(Earlier(pr.fns, sigs, i), f)
    ensures ExecStmt(pr, prim, i, Call(f, args), fr).Some?
    ensures FrameFits(ExecStmt(pr, prim, i, Call(f, args), fr).value, env)
    decreases i, 0, 1
  {
    hide EvalArgs, FrameFits, ArgShapes, Bind, BodyEnv, EntryEnv, Typed, Targets, ParamsFit, RunFn, FindFn;
    ArgsRun(prim, args, fr, env);
    var j := SigIsEarlier(Earlier(pr.fns, sigs, i), f);
    var vals := EvalArgs(prim, args, fr).value;
    CalleeRuns(pr, sigs, prim, i, j, vals);
    CallFits(fr, env, args, pr.fns[j].params, sigs[j], pr.reg, EvalFn(pr, prim, i - 1, f, vals).value.outs);
  }

  lemma {:induction false} CalleeRuns(pr: Program, sigs: seq<Sig>, prim: Prim, i: nat, j: nat, vals: seq<ArgVal>)
    requires WellTyped(pr.fns, sigs, pr.reg) && j < i < |pr.fns| && ArgsFit(vals, sigs[j])
    ensures EvalFn(pr, prim, i - 1, pr.fns[j].name, vals).Some?
    ensures Typed(pr.fns[j].params, EvalFn(pr, prim, i - 1, pr.fns[j].name, vals).value.outs, pr.reg)
    ensures ParamsFit(pr.fns[j].params, sigs[j], pr.reg)
    decreases i, 0, 0
  {
    hide BodyEnv, EntryEnv, Typed, ParamsFit, RunFn, FindFn, ArgsFit;
    var fn := pr.fns[j];
    assert FnTyped(fn, sigs[j], Earlier(pr.fns, sigs, j), pr.reg);
    FindNamed(pr.fns, j);
    TypedRuns(pr, sigs, prim, j, vals);
    FnDeeper(pr, prim, j, i - 1, fn.name, vals);
    OutsTyped(pr, prim, i - 1, fn, vals);
  }

  lemma {:induction false} BodyRuns(pr: Program, sigs: seq<Sig>, prim: Prim, i: nat, body: seq<Stmt>,
                                    fr: Frame, env: Env)
    requires WellTyped(pr.fns, sigs, pr.reg) && i < |pr.fns| && FrameFits(fr, env)
    requires BodyEnv(body, env, Earlier(pr.fns, sigs, i)).Some?
    ensures ExecStmts(pr, prim, i, body, fr).Some?
    decreases i, 1, |body|
  {
    hide FnTyped, FrameFits, StmtEnv, ExecStmt;
    if body != [] {
      StmtRuns(pr, sigs, prim, i, body[0], fr, env);
      BodyRuns(pr, sigs, prim, i, body[1..], ExecStmt(pr, prim, i, body[0], fr).value,
               StmtEnv(body[0], env, Earlier(pr.fns, sigs, i)).value);
    }
  }

  /** A call with arguments of the right layouts has a meaning, at the depth of the function's place
      in the file. */
  lemma {:induction false} TypedRuns(pr: Program, sigs: seq<Sig>, prim: Prim, i: nat, args: seq<ArgVal>)
    requires WellTyped(pr.fns, sigs, pr.reg) && i < |pr.fns| && ArgsFit(args, sigs[i])
    ensures EvalFn(pr, prim, i, pr.fns[i].name, args).Some?
    decreases i, 2, 0
  {
    var fn := pr.fns[i];
    assert FnTyped(fn, sigs[i], Earlier(pr.fns, sigs, i), pr.reg);
    FindNamed(pr.fns, i);
    EntryFits(fn.params, sigs[i], args, pr.reg);
    var fr := BindParams(fn.params, args, pr.reg).value;
    hide BindParams, FrameFits, EntryEnv, BodyEnv, ParamsFit, ArgsFit;
    BodyRuns(pr, sigs, prim, i, fn.body, fr, EntryEnv(fn.params, sigs[i]));
    var end := ExecStmts(pr, prim, i, fn.body, fr).value;
    RefsKept(pr, prim, i, fn.body, fr);
    EntryFrame(fn.params, args, pr.reg);
    hide ExecStmts, HasType, FindFn;
    forall x | x in OutNames(fn.params)
      ensures x in end.refs
    {
      OutNamesAre(fn.params, x);
      assert x in fr.refs.Keys;
    }
    RunIs(pr, prim, i, fn, args, end);
  }

  /** Total correctness of the rewrite. In a file that the tool accepts, whose functions are well-typed,
      call only earlier functions and meet the conditions of `MeaningPreserved`, every call with
      arguments of the right layouts has a meaning, and so has the rewritten call: under every output
      name it returns the value that the original leaves there. */
  lemma TotalMeaning(items: seq<Item>, items': seq<Item>, sigs: seq<Sig>, prim: Prim, i: nat, args: seq<ArgVal>)
    returns (o: Outcome, o': Outcome)
    requires RewriteItems(items, map[]) == Ok(items') && GoodProgram(ProgramOf(items))
    requires WellTyped(FnsOf(items), sigs, ProgramOf(items).reg) && i < |FnsOf(items)| && ArgsFit(args, sigs[i])
    ensures Means(ProgramOf(items), prim, FnsOf(items)[i].name, args, o)
    ensures Means(ProgramOf(items'), prim, FnsOf(items)[i].name, ByValues(ValuesOf(args)), o')
    ensures o'.outs == [] && SameOutputs(FnsOf(items)[i].params, o.outs, o'.ret)
    ensures Aligned(FnsOf(items)[i].params, ProgramOf(items).reg) ==> o'.ret == o.outs
  {
    var pr, f := ProgramOf(items), FnsOf(items)[i].name;
    FindNamed(pr.fns, i);
    hide RewriteItems, GoodProgram, EvalFn, SameOutputs, Aligned, FnTyped, ArgsFit, FindFn;
    TypedRuns(pr, sigs, prim, i, args);
    o := EvalFn(pr, prim, i, f, args).value;
    assert EvalFn(pr, prim, i, f, args) == Some(o);
    o' := MeaningPreserved(items, items', prim, f, args, o);
  }
}
