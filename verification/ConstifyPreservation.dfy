/** The rewrite preserves meaning: a rewritten function returns the values that the original
    leaves behind its `&mut` parameters. */
module ConstifyPreservation {
  import opened Common
  import opened OrderedMap
  import opened ConstifySyntax
  import opened ConstifyTypes
  import opened ConstifySemantics
  import opened ConstifyRewrite
  import opened ConstifyDefaults

  /** The places that still hold what the caller passed in: an element of an array, or index 0
      for a scalar. After the rewrite these places hold zeros instead. */
  type Places = set<(Ident, nat)>

  // ----- the static condition on the programs -----

  predicate Untouched(x: Ident, i: nat, u: Places) { (x, i) in u }

  ghost predicate Whole(x: Ident, u: Places) {
    forall i: nat :: !Untouched(x, i, u)
  }

  /** `e` reads only places that have been written, and reads none of them as `*x`. */
  ghost predicate ReadsWritten(e: Expr, u: Places) {
    match e
    case Lit(_) => true
    case Fill(_, _) => true
    case Var(x) => Whole(x, u)
    case Deref(_) => false
    case Index(x, i) => !Untouched(x, i, u)
    case Op(_, l, r) => ReadsWritten(l, u) && ReadsWritten(r, u)
  }

  ghost predicate ArgsReadWritten(args: seq<Arg>, u: Places) {
    forall a :: a in args && a.Plain? ==> ReadsWritten(a.e, u)
  }

  function After(s: Stmt, u: Places): Places {
    match s
    case Let(x, _) => set p | p in u && p.0 != x
    case Assign(PlaceIndex(x, i), _) => u - {(x, i)}
    case Assign(place, _) => set p | p in u && p.0 != place.x
    case Call(_, args) => set p | p in u && p.0 !in Targets(args)
    case LetTuple(_, _, _) => u
  }

  /** The variables that a rewritten call has bound, which may not be assigned again. */
  function FrozenAfter(s: Stmt, z: set<Ident>): set<Ident> {
    match s
    case Let(x, _) => z - {x}
    case Call(_, args) => z + Elements(Targets(args))
    case _ => z
  }

  /** Every output stands where the order of the names puts it, or has a type with one value only. */
  ghost predicate Aligned(params: seq<Param>, reg: Registry) {
    && OutputsOf(params, []).Ok?
    && var sorted := Keys(OutputsOf(params, []).value);
    && var outs := MutParams(params);
    && |sorted| == |outs|
    && forall i :: 0 <= i < |outs| ==> sorted[i] == outs[i].name || ShapeOf(outs[i].ty, reg) == Some(ArrayShape(0))
  }

  /** No output is redeclared, what a call has filled is not assigned again, and every callee has
      its outputs in order. */
  ghost predicate GoodStmt(s: Stmt, outs: set<Ident>, u: Places, z: set<Ident>, pr: Program) {
    match s
    case Let(x, e) => x !in outs && ReadsWritten(e, u)
    case Assign(place, e) => place.x !in z && ReadsWritten(e, u)
    case Call(f, args) =>
      && ArgsReadWritten(args, u)
      && (forall x :: x in Targets(args) ==> x !in outs)
      && (FindFn(pr.fns, f).Some? ==> Aligned(FindFn(pr.fns, f).value.params, pr.reg))
    case LetTuple(_, _, _) => false
  }

  ghost predicate Careful(body: seq<Stmt>, outs: set<Ident>, u: Places, z: set<Ident>, pr: Program)
    decreases |body|
  {
    body != [] ==>
      && GoodStmt(body[0], outs, u, z, pr)
      && Careful(body[1..], outs, After(body[0], u), FrozenAfter(body[0], z), pr)
  }

  /** The places of `u` that `body` does not write. */
  function Unwritten(body: seq<Stmt>, u: Places): Places
    decreases |body|
  {
    if body == [] then u else Unwritten(body[1..], After(body[0], u))
  }

  function PlacesOf(x: Ident, sh: Option<Shape>): Places {
    match sh
    case None => {}
    case Some(ScalarShape) => {(x, 0)}
    case Some(ArrayShape(n)) => set i: nat | i < n :: (x, i)
  }

  function EntryPlaces(params: seq<Param>, reg: Registry): Places {
    if params == [] then {}
    else PlacesOf(params[0].name, ShapeOf(params[0].ty, reg)) + EntryPlaces(params[1..], reg)
  }

  /** The function reads no place of its outputs before it has written it. */
  ghost predicate CarefulFn(fn: Fn, pr: Program) {
    && Distinct(Names(fn.params))
    && fn.result == []
    && Careful(fn.body, Elements(OutNames(fn.params)), EntryPlaces(MutParams(fn.params), pr.reg), {}, pr)
  }

  /** The function writes every place of its outputs. */
  ghost predicate FullyWritten(fn: Fn, reg: Registry) {
    forall x :: x in OutNames(fn.params) ==> Whole(x, Unwritten(fn.body, EntryPlaces(MutParams(fn.params), reg)))
  }

  ghost predicate GoodFn(fn: Fn, pr: Program) {
    CarefulFn(fn, pr) && FullyWritten(fn, pr.reg)
  }

  ghost predicate GoodProgram(pr: Program) {
    && (forall fn :: fn in pr.fns ==> GoodFn(fn, pr))
    && pr.reg.Keys !! PRIMITIVES
  }

  // ----- the simulation relation -----

  /** `v` before and `w` after the rewrite, as far as the places of `x` have been written. */
  predicate Agree(x: Ident, v: Value, w: Value, u: Places) {
    match (v, w)
    case (Scalar(a), Scalar(b)) => Untouched(x, 0, u) || a == b
    case (Arr(s), Arr(t)) =>
      |s| == |t| && forall i: nat :: i < |s| ==> Untouched(x, i, u) || s[i] == t[i]
    case _ => false
  }

  predicate Related(fr: Frame, fr': Frame, u: Places) {
    && fr'.refs == map[]
    && fr.locals.Keys !! fr.refs.Keys
    && fr'.locals.Keys == fr.locals.Keys + fr.refs.Keys
    && (forall x :: x in fr'.locals.Keys ==> Agree(x, Lookup(fr, x).value, fr'.locals[x], u))
  }

  lemma AgreeWhole(x: Ident, v: Value, w: Value, u: Places)
    requires Agree(x, v, w, u) && Whole(x, u)
    ensures v == w
  {
    if v.Arr? {
      assert v.elems == w.elems;
    }
  }

  lemma AgreeSelf(x: Ident, v: Value, u: Places)
    ensures Agree(x, v, v, u)
  {
  }

  lemma {:induction false} ExprSimulated(prim: Prim, e: Expr, fr: Frame, fr': Frame, u: Places)
    requires Related(fr, fr', u) && ReadsWritten(e, u)
    requires EvalExpr(prim, e, fr).Some?
    ensures EvalExpr(prim, e, fr') == EvalExpr(prim, e, fr)
  {
    match e
    case Lit(_) =>
    case Fill(_, _) =>
    case Var(x) => AgreeWhole(x, fr.locals[x], fr'.locals[x], u);
    case Index(x, i) => assert x in fr'.locals.Keys;
    case Op(_, l, r) =>
      ExprSimulated(prim, l, fr, fr', u);
      ExprSimulated(prim, r, fr, fr', u);
  }

  /** The values among the arguments of a call. */
  function ValuesOf(args: seq<ArgVal>): seq<Value> {
    if args == [] then []
    else (if args[0].PassValue? then [args[0].v] else []) + ValuesOf(args[1..])
  }

  lemma {:induction false} ArgsSimulated(prim: Prim, args: seq<Arg>, fr: Frame, fr': Frame, u: Places)
    requires Related(fr, fr', u) && ArgsReadWritten(args, u)
    requires EvalArgs(prim, args, fr).Some?
    ensures EvalExprs(prim, PlainArgs(args), fr') == Some(ValuesOf(EvalArgs(prim, args, fr).value))
  {
    if args != [] {
      ArgsSimulated(prim, args[1..], fr, fr', u);
      var vals := EvalArgs(prim, args, fr).value;
      assert vals[1..] == EvalArgs(prim, args[1..], fr).value;
      match args[0] {
        case Plain(e) =>
          assert args[0] in args;
          ExprSimulated(prim, e, fr, fr', u);
          assert PlainArgs(args) == [e] + PlainArgs(args[1..]);
          assert PlainArgs(args)[1..] == PlainArgs(args[1..]);
        case MutRef(_) =>
          assert PlainArgs(args) == PlainArgs(args[1..]);
          assert ValuesOf(vals) == ValuesOf(vals[1..]);
      }
    }
  }

  // ----- binding -----

  lemma {:induction false} BindKeys(locals: map<Ident, Value>, xs: seq<Ident>, vs: seq<Value>, y: Ident)
    requires |xs| == |vs|
    ensures y in Bind(locals, xs, vs) <==> y in locals || y in xs
    ensures y in locals && y !in xs ==> Bind(locals, xs, vs)[y] == locals[y]
    decreases |xs|
  {
    if xs != [] {
      BindKeys(locals[xs[0] := vs[0]], xs[1..], vs[1..], y);
      assert y in xs <==> y == xs[0] || y in xs[1..];
    }
  }

  /** What a pattern binds does not depend on the locals that it extends. */
  lemma {:induction false} BindSame(l: map<Ident, Value>, m: map<Ident, Value>, xs: seq<Ident>, vs: seq<Value>,
                                    y: Ident)
    requires |xs| == |vs| && y in xs
    ensures y in Bind(l, xs, vs) && y in Bind(m, xs, vs) && Bind(l, xs, vs)[y] == Bind(m, xs, vs)[y]
    decreases |xs|
  {
    BindKeys(l, xs, vs, y);
    BindKeys(m, xs, vs, y);
    if y in xs[1..] {
      BindSame(l[xs[0] := vs[0]], m[xs[0] := vs[0]], xs[1..], vs[1..], y);
    } else {
      BindKeys(l[xs[0] := vs[0]], xs[1..], vs[1..], y);
      BindKeys(m[xs[0] := vs[0]], xs[1..], vs[1..], y);
    }
  }

  lemma {:induction false} ParamsSimulated(params: seq<Param>, args: seq<ArgVal>, reg: Registry)
    requires BindParams(params, args, reg).Some?
    ensures BindParams(Inputs(params), ByValues(ValuesOf(args)), reg)
            == Some(BindParams(params, args, reg).value.(refs := map[]))
    ensures BindParams(params, args, reg).value.frozen == {}
  {
    hide HasType;
    if params != [] {
      ParamsSimulated(params[1..], args[1..], reg);
      FirstValue(args);
      if params[0].ByValue? {
        assert Inputs(params)[1..] == Inputs(params[1..]);
      } else {
        assert Inputs(params) == Inputs(params[1..]);
      }
    } else {
      assert ByValues(ValuesOf(args)) == [];
    }
  }

  lemma FirstValue(args: seq<ArgVal>)
    requires args != []
    ensures var vs := ByValues(ValuesOf(args));
            if args[0].PassValue? then vs != [] && vs[0] == args[0] && vs[1..] == ByValues(ValuesOf(args[1..]))
            else vs == ByValues(ValuesOf(args[1..]))
  {
    if args[0].PassValue? {
      assert ValuesOf(args) == [args[0].v] + ValuesOf(args[1..]);
    } else {
      assert ValuesOf(args) == ValuesOf(args[1..]);
    }
  }

  lemma {:induction false} OutNamesAre(params: seq<Param>, x: Ident)
    ensures x in OutNames(params) <==> exists p :: p in params && p.ByMutRef? && p.name == x
  {
    assert OutNames([]) == [];
    hide OutNames;
    if params != [] {
      OutNamesAre(params[1..], x);
      FirstOutName(params);
      var rest := params[1..];
      assert forall p :: p in params <==> p == params[0] || p in rest;
      if x in OutNames(rest) {
        var p :| p in rest && p.ByMutRef? && p.name == x;
        assert p in params;
      } else if params[0].ByMutRef? && params[0].name == x {
        assert params[0] in params;
      }
    }
  }

  /** The frame at entry: the locals are the value parameters, the references are the outputs. */
  lemma {:induction false} EntryFrame(params: seq<Param>, args: seq<ArgVal>, reg: Registry)
    requires BindParams(params, args, reg).Some? && Distinct(Names(params))
    ensures var fr := BindParams(params, args, reg).value;
            && (forall x :: x in fr.refs ==> x in Names(params))
            && (forall x :: x in fr.locals ==> x in Names(params))
            && fr.locals.Keys !! fr.refs.Keys
            && (forall p :: p in params && p.ByMutRef? ==>
                  p.name in fr.refs && HasType(fr.refs[p.name], p.ty, reg))
            && (forall x :: x in fr.refs ==> x in OutNames(params))
  {
    if params != [] {
      assert Names(params)[1..] == Names(params[1..]);
      assert Distinct(Names(params[1..]));
      EntryFrame(params[1..], args[1..], reg);
      var rest := BindParams(params[1..], args[1..], reg).value;
      var fr := BindParams(params, args, reg).value;
      assert params[0].name !in Names(params[1..]);
      forall p | p in params && p.ByMutRef?
        ensures p.name in fr.refs && HasType(fr.refs[p.name], p.ty, reg)
      {
        if p in params[1..] {
          assert p.name in rest.refs;
        }
      }
      forall x | x in fr.refs
        ensures x in OutNames(params)
      {
        OutNamesAre(params, x);
        OutNamesAre(params[1..], x);
        if x in rest.refs {
          var p :| p in params[1..] && p.ByMutRef? && p.name == x;
          assert p in params;
        } else {
          assert params[0] in params;
        }
      }
      assert Names(params) == [params[0].name] + Names(params[1..]);
    }
  }

  // ----- the defaults -----

  lemma {:induction false} OutputsGet(params: seq<Param>, from: seq<(Key, Type)>, k: Key)
    requires OutputsOf(params, from).Ok?
    ensures var m := OutputsOf(params, from).value;
            && (Get(from, k).Some? ==> Get(m, k) == Get(from, k))
            && (forall p :: p in params && p.ByMutRef? && p.name == k ==> Get(m, k) == Some(p.ty))
            && (Get(m, k).Some? ==> Get(from, k).Some? || k in OutNames(params))
  {
    if params != [] {
      OutNamesAre(params, k);
      OutNamesAre(params[1..], k);
      if params[0].ByValue? {
        OutputsGet(params[1..], from, k);
      } else {
        InsertGet(from, params[0].name, params[0].ty, k);
        OutputsGet(params[1..], Insert(from, params[0].name, params[0].ty), k);
        assert params[0] in params;
      }
      assert forall p :: p in params <==> p == params[0] || p in params[1..];
    }
  }

  /** The names of the outputs are pairwise different whenever the rewrite succeeds, and all of them
      are in the map. */
  lemma {:induction false} OutNamesDistinct(params: seq<Param>, from: seq<(Key, Type)>)
    requires OutputsOf(params, from).Ok?
    ensures Distinct(OutNames(params))
    ensures forall x :: x in OutNames(params) ==> Get(from, x).None?
    ensures |OutputsOf(params, from).value| == |from| + |OutNames(params)|
  {
    if params != [] {
      if params[0].ByValue? {
        assert OutNames(params) == OutNames(params[1..]);
        OutNamesDistinct(params[1..], from);
      } else {
        var p, more := params[0], Insert(from, params[0].name, params[0].ty);
        InsertLength(from, p.name, p.ty);
        OutNamesDistinct(params[1..], more);
        assert OutNames(params) == [p.name] + OutNames(params[1..]);
        hide Insert, OutNames, OutputsOf;
        InsertGet(from, p.name, p.ty, p.name);
        forall x | x in OutNames(params)
          ensures Get(from, x).None?
        {
          InsertGet(from, p.name, p.ty, x);
        }
      }
    }
  }

  /** The keys of the outputs are the names of the `&mut` parameters. */
  lemma OutputKeys(params: seq<Param>, k: Key)
    requires OutputsOf(params, []).Ok?
    ensures k in Keys(OutputsOf(params, []).value) <==> k in OutNames(params)
  {
    OutputsGet(params, [], k);
    OutNamesAre(params, k);
    GetKeys(OutputsOf(params, []).value, k);
  }

  /** Every output has a local that holds the zero of its type. */
  ghost predicate Initialised(outputs: seq<(Key, Type)>, reg: Registry, locals: map<Ident, Value>) {
    forall o :: o in outputs ==>
      o.0 in locals && locals[o.0] == ValueFor(o.1, reg, 0) && HasType(locals[o.0], o.1, reg)
  }

  function WithZeros(locals: map<Ident, Value>, outputs: seq<(Key, Type)>, reg: Registry): map<Ident, Value>
    decreases |outputs|
  {
    if outputs == [] then locals
    else WithZeros(locals[outputs[0].0 := ValueFor(outputs[0].1, reg, 0)], outputs[1..], reg)
  }

  ghost predicate AllShaped(outputs: seq<(Key, Type)>, reg: Registry) {
    forall o :: o in outputs ==> ShapeOf(o.1, reg).Some?
  }

  lemma ExecCons(pr: Program, prim: Prim, depth: nat, s: Stmt, rest: seq<Stmt>, fr: Frame)
    requires ExecStmt(pr, prim, depth, s, fr).Some?
    ensures ExecStmts(pr, prim, depth, [s] + rest, fr)
            == ExecStmts(pr, prim, depth, rest, ExecStmt(pr, prim, depth, s, fr).value)
  {
    assert ([s] + rest)[1..] == rest;
  }

  /** The effect of the inserted `let mut x: ty = <zero>` statements. */
  lemma {:induction false} LetsRun(pr: Program, prim: Prim, depth: nat, outputs: seq<(Key, Type)>, reg: Registry,
                                   rest: seq<Stmt>, fr: Frame)
    requires LetBindings(outputs, reg).Ok? && AllShaped(outputs, reg) && fr.frozen == {}
    ensures ExecStmts(pr, prim, depth, LetBindings(outputs, reg).value + rest, fr)
            == ExecStmts(pr, prim, depth, rest, fr.(locals := WithZeros(fr.locals, outputs, reg)))
    decreases |outputs|
  {
    hide ExecStmts, ExecStmt, ShapeOf, DefaultFor;
    var lets := LetBindings(outputs, reg).value;
    if outputs == [] {
      assert lets + rest == rest;
    } else {
      var x, e := outputs[0].0, DefaultFor(outputs[0].1, reg, {}).value;
      var tail := LetBindings(outputs[1..], reg).value;
      assert outputs[0] in outputs;
      LetZero(pr, prim, depth, x, outputs[0].1, reg, fr);
      ExecCons(pr, prim, depth, Let(x, e), tail + rest, fr);
      Assoc([Let(x, e)], tail, rest);
      LetsRun(pr, prim, depth, outputs[1..], reg, rest, fr.(locals := fr.locals[x := ValueFor(outputs[0].1, reg, 0)]));
    }
  }

  lemma LetZero(pr: Program, prim: Prim, depth: nat, x: Ident, ty: Type, reg: Registry, fr: Frame)
    requires DefaultFor(ty, reg, {}).Ok? && ShapeOf(ty, reg).Some? && fr.frozen == {}
    ensures ExecStmt(pr, prim, depth, Let(x, DefaultFor(ty, reg, {}).value), fr)
            == Some(fr.(locals := fr.locals[x := ValueFor(ty, reg, 0)]))
  {
    hide DefaultFor, ShapeOf;
    DefaultHasShape(ty, reg);
    assert fr.frozen - {x} == fr.frozen;
  }

  lemma {:induction false} WithZerosAt(locals: map<Ident, Value>, outputs: seq<(Key, Type)>, reg: Registry, x: Ident)
    ensures var l := WithZeros(locals, outputs, reg);
            && (x in l <==> x in locals || x in Keys(outputs))
            && (x in locals && x !in Keys(outputs) ==> l[x] == locals[x])
    decreases |outputs|
  {
    if outputs != [] {
      WithZerosAt(locals[outputs[0].0 := ValueFor(outputs[0].1, reg, 0)], outputs[1..], reg, x);
      assert Keys(outputs) == [outputs[0].0] + Keys(outputs[1..]);
    }
  }

  lemma ValueHasType(ty: Type, reg: Registry, n: int)
    requires ShapeOf(ty, reg).Some?
    ensures HasType(ValueFor(ty, reg, n), ty, reg)
  {
    hide ShapeOf;
  }

  lemma FirstKeyOnly(outputs: Map<Type>)
    requires outputs != []
    ensures Increasing(Keys(outputs[1..])) && outputs[0].0 !in Keys(outputs[1..])
  {
    TailIncreasing(outputs);
    IncreasingDistinct(Keys(outputs));
    assert Keys(outputs) == [outputs[0].0] + Keys(outputs[1..]);
  }

  lemma {:induction false} WithZerosInit(locals: map<Ident, Value>, outputs: Map<Type>, reg: Registry)
    requires AllShaped(outputs, reg)
    ensures Initialised(outputs, reg, WithZeros(locals, outputs, reg))
    decreases |outputs|
  {
    hide HasType, ValueFor, ShapeOf, Increasing;
    if outputs != [] {
      var x, v := outputs[0].0, ValueFor(outputs[0].1, reg, 0);
      FirstKeyOnly(outputs);
      assert outputs[0] in outputs;
      ValueHasType(outputs[0].1, reg, 0);
      WithZerosInit(locals[x := v], outputs[1..], reg);
      WithZerosAt(locals[x := v], outputs[1..], reg, x);
      assert outputs == [outputs[0]] + outputs[1..];
    }
  }

  lemma WithZerosHas(locals: map<Ident, Value>, outputs: Map<Type>, reg: Registry)
    requires AllShaped(outputs, reg)
    ensures var l := WithZeros(locals, outputs, reg);
            && (forall x :: x in l <==> x in locals || x in Keys(outputs))
            && (forall x :: x in locals && x !in Keys(outputs) ==> l[x] == locals[x])
            && Initialised(outputs, reg, l)
  {
    WithZerosInit(locals, outputs, reg);
    forall x: Ident {
      WithZerosAt(locals, outputs, reg, x);
    }
  }

  lemma {:induction false} EntryPlacesCover(params: seq<Param>, reg: Registry, p: Param)
    requires p in params
    ensures PlacesOf(p.name, ShapeOf(p.ty, reg)) <= EntryPlaces(params, reg)
  {
    if p != params[0] {
      EntryPlacesCover(params[1..], reg, p);
    }
  }

  lemma {:induction false} EntryPlacesNamed(params: seq<Param>, reg: Registry)
    ensures forall q :: q in EntryPlaces(params, reg) ==> q.0 in Names(params)
  {
    if params != [] {
      EntryPlacesNamed(params[1..], reg);
      assert Names(params) == [params[0].name] + Names(params[1..]);
    }
  }

  lemma {:induction false} MutParamsAre(params: seq<Param>, p: Param)
    ensures p in MutParams(params) <==> p in params && p.ByMutRef?
  {
    if params != [] {
      MutParamsAre(params[1..], p);
    }
  }

  /** At entry the frames agree outside the places of the outputs. */
  lemma EntryRelated(params: seq<Param>, args: seq<ArgVal>, reg: Registry, outputs: Map<Type>, fr': Frame)
    requires BindParams(params, args, reg).Some? && Distinct(Names(params))
    requires OutputsOf(params, []) == Ok(outputs)
    requires fr'.refs == map[] && Initialised(outputs, reg, fr'.locals)
    requires var fr := BindParams(params, args, reg).value;
             && (forall x :: x in fr'.locals <==> x in fr.locals || x in Keys(outputs))
             && (forall x :: x in fr.locals && x !in Keys(outputs) ==> fr'.locals[x] == fr.locals[x])
    ensures Related(BindParams(params, args, reg).value, fr', EntryPlaces(MutParams(params), reg))
    ensures BindParams(params, args, reg).value.refs.Keys == Elements(OutNames(params))
  {
    var fr := BindParams(params, args, reg).value;
    var u := EntryPlaces(MutParams(params), reg);
    EntryKeys(params, args, reg, outputs);
    forall x | x in fr'.locals.Keys
      ensures Agree(x, Lookup(fr, x).value, fr'.locals[x], u)
    {
      if x in Keys(outputs) {
        OutputAgrees(params, args, reg, outputs, fr'.locals, x);
      } else {
        AgreeSelf(x, fr.locals[x], u);
      }
    }
    assert fr'.locals.Keys == fr.locals.Keys + fr.refs.Keys;
  }

  lemma EntryKeys(params: seq<Param>, args: seq<ArgVal>, reg: Registry, outputs: Map<Type>)
    requires BindParams(params, args, reg).Some? && Distinct(Names(params))
    requires OutputsOf(params, []) == Ok(outputs)
    ensures var fr := BindParams(params, args, reg).value;
            && fr.locals.Keys !! fr.refs.Keys
            && (forall x :: x in fr.refs <==> x in Keys(outputs))
            && fr.refs.Keys == Elements(OutNames(params))
  {
    EntryFrame(params, args, reg);
    var fr := BindParams(params, args, reg).value;
    forall x
      ensures x in fr.refs <==> x in Keys(outputs)
      ensures x in fr.refs <==> x in OutNames(params)
    {
      OutputKeys(params, x);
      OutNamesAre(params, x);
    }
  }

  lemma OutputAgrees(params: seq<Param>, args: seq<ArgVal>, reg: Registry, outputs: Map<Type>,
                     locals: map<Ident, Value>, x: Ident)
    requires BindParams(params, args, reg).Some? && Distinct(Names(params))
    requires OutputsOf(params, []) == Ok(outputs)
    requires Initialised(outputs, reg, locals)
    requires x in Keys(outputs)
    ensures x in locals && x in BindParams(params, args, reg).value.refs
    ensures Agree(x, BindParams(params, args, reg).value.refs[x], locals[x], EntryPlaces(MutParams(params), reg))
  {
    var i :| 0 <= i < |outputs| && Keys(outputs)[i] == x;
    assert outputs[i] in outputs;
    OutputKeys(params, x);
    OutNamesAre(params, x);
    var p :| p in params && p.ByMutRef? && p.name == x;
    OutputsGet(params, [], x);
    GetEntry(outputs, i);
    EntryFrame(params, args, reg);
    MutParamsAre(params, p);
    EntryPlacesCover(MutParams(params), reg, p);
    EntryAgree(x, BindParams(params, args, reg).value.refs[x], locals[x], ShapeOf(p.ty, reg).value,
               EntryPlaces(MutParams(params), reg));
  }

  lemma EntryAgree(x: Ident, v: Value, w: Value, sh: Shape, u: Places)
    requires HasShape(v, sh) && HasShape(w, sh) && PlacesOf(x, Some(sh)) <= u
    ensures Agree(x, v, w, u)
  {
    if sh.ArrayShape? {
      forall i: nat | i < |v.elems|
        ensures Untouched(x, i, u)
      {
        assert (x, i) in PlacesOf(x, Some(sh));
      }
    } else {
      assert (x, 0) in PlacesOf(x, Some(sh));
    }
  }

  // ----- the simulation -----

  /** The functions of `pr'` are the rewritten functions of `pr`. */
  ghost predicate RewrittenFns(fns: seq<Fn>, fns': seq<Fn>, reg: Registry) {
    |fns| == |fns'| && forall i :: 0 <= i < |fns| ==> RewriteFn(fns[i], reg) == Ok(fns'[i])
  }

  ghost predicate Rewritten(pr: Program, pr': Program) {
    pr'.reg == pr.reg && RewrittenFns(pr.fns, pr'.fns, pr.reg)
  }

  lemma {:induction false} FindRewritten(fns: seq<Fn>, fns': seq<Fn>, reg: Registry, f: Ident)
    requires RewrittenFns(fns, fns', reg) && FindFn(fns, f).Some?
    ensures FindFn(fns, f).value in fns
    ensures FindFn(fns', f).Some?
    ensures RewriteFn(FindFn(fns, f).value, reg) == Ok(FindFn(fns', f).value)
  {
    assert RewriteFn(fns[0], reg) == Ok(fns'[0]);
    if fns[0].name != f {
      assert RewrittenFns(fns[1..], fns'[1..], reg) by {
        forall i | 0 <= i < |fns[1..]|
          ensures RewriteFn(fns[1..][i], reg) == Ok(fns'[1..][i])
        {
          assert RewriteFn(fns[i + 1], reg) == Ok(fns'[i + 1]);
        }
      }
      FindRewritten(fns[1..], fns'[1..], reg, f);
    }
  }

  lemma StoreDefined(fr: Frame, fr': Frame, u: Places, place: Place, v: Value)
    requires Related(fr, fr', u) && Store(fr, place, v).Some? && place.x !in fr'.frozen
    ensures Store(fr', if place.PlaceDeref? then PlaceVar(place.x) else place, v).Some?
  {
    assert place.x in fr'.locals.Keys;
    assert Agree(place.x, Lookup(fr, place.x).value, fr'.locals[place.x], u);
  }

  lemma StoreSimulated(fr: Frame, fr': Frame, u: Places, place: Place, e: Expr, v: Value)
    requires Related(fr, fr', u) && Store(fr, place, v).Some? && place.x !in fr'.frozen
    ensures var place' := if place.PlaceDeref? then PlaceVar(place.x) else place;
            && Store(fr', place', v).Some?
            && Related(Store(fr, place, v).value, Store(fr', place', v).value, After(Assign(place, e), u))
    ensures Store(fr, place, v).value.refs.Keys == fr.refs.Keys
    ensures Store(fr, place, v).value.frozen == fr.frozen
    ensures Store(fr', if place.PlaceDeref? then PlaceVar(place.x) else place, v).value.frozen == fr'.frozen
  {
    StoreDefined(fr, fr', u, place, v);
    var place' := if place.PlaceDeref? then PlaceVar(place.x) else place;
    StorePuts(fr, place, v);
    StorePuts(fr', place', v);
    hide Agree, Related, Store;
    var x, u' := place.x, After(Assign(place, e), u);
    RelatedAt(fr, fr', u, x);
    var cur, cur' := Lookup(fr, x).value, fr'.locals[x];
    StoredAgree(place, u, e, cur, cur', v);
    PutRelated(fr, fr', u, u', x, Stored(place, cur, v), Stored(place, cur', v));
  }

  lemma StoredAgree(place: Place, u: Places, e: Expr, v: Value, w: Value, n: Value)
    requires Agree(place.x, v, w, u)
    requires place.PlaceIndex? ==> v.Arr? && place.i < |v.elems| && n.Scalar?
    ensures Agree(place.x, Stored(place, v, n), Stored(place, w, n), After(Assign(place, e), u))
  {
    if place.PlaceIndex? {
      AgreeAt(place.x, v, w, u, place.i, n.n);
    } else {
      AgreeSelf(place.x, n, After(Assign(place, e), u));
    }
  }

  lemma RelatedAt(fr: Frame, fr': Frame, u: Places, x: Ident)
    requires Related(fr, fr', u) && Lookup(fr, x).Some?
    ensures fr.locals.Keys !! fr.refs.Keys && x in fr'.locals && Agree(x, Lookup(fr, x).value, fr'.locals[x], u)
  {
    hide Agree;
    assert x in fr'.locals.Keys;
  }

  /** A variable changes on both sides. */
  lemma PutRelated(fr: Frame, fr': Frame, u: Places, u': Places, x: Ident, v: Value, w: Value)
    requires Related(fr, fr', u) && Lookup(fr, x).Some? && Agree(x, v, w, u')
    requires forall p :: p in u && p.0 != x ==> p in u'
    ensures Related(Put(fr, x, v), Put(fr', x, w), u')
  {
    RelatedAt(fr, fr', u, x);
    PutKeys(fr, x, v);
    PutKeys(fr', x, w);
    var g, g' := Put(fr, x, v), Put(fr', x, w);
    hide Agree, Put;
    forall y | y in g'.locals.Keys
      ensures Agree(y, Lookup(g, y).value, g'.locals[y], u')
    {
      assert Lookup(g', y) == Some(g'.locals[y]);
      if y != x {
        assert y in fr'.locals.Keys;
        AgreeShrinks(y, Lookup(fr, y).value, fr'.locals[y], u, u', x);
      }
    }
  }

  lemma PutKeys(fr: Frame, x: Ident, v: Value)
    requires Lookup(fr, x).Some?
    ensures var g := Put(fr, x, v);
            && g.locals.Keys == fr.locals.Keys && g.refs.Keys == fr.refs.Keys && g.frozen == fr.frozen
            && (forall y :: Lookup(g, y) == if y == x then Some(v) else Lookup(fr, y))
            && (fr.refs == map[] ==> g.refs == map[])
  {
  }

  lemma AgreeAt(x: Ident, v: Value, w: Value, u: Places, i: nat, n: int)
    requires Agree(x, v, w, u) && v.Arr? && i < |v.elems|
    ensures Agree(x, Arr(v.elems[i := n]), Arr(w.elems[i := n]), u - {(x, i)})
  {
    forall k: nat | k < |v.elems|
      ensures Untouched(x, k, u - {(x, i)}) || v.elems[i := n][k] == w.elems[i := n][k]
    {
      assert Untouched(x, k, u) || v.elems[k] == w.elems[k];
    }
  }

  lemma AgreeShrinks(y: Ident, v: Value, w: Value, u: Places, u': Places, x: Ident)
    requires Agree(y, v, w, u)
    requires forall p :: p in u && p.0 != x ==> p in u'
    ensures y != x ==> Agree(y, v, w, u')
  {
    if y != x && v.Arr? {
      forall i: nat | i < |v.elems|
        ensures Untouched(y, i, u') || v.elems[i] == w.elems[i]
      {
        assert Untouched(y, i, u) || v.elems[i] == w.elems[i];
      }
    }
  }

  lemma LetSimulated(fr: Frame, fr': Frame, u: Places, x: Ident, e: Expr, v: Value)
    requires Related(fr, fr', u) && x !in fr.refs
    ensures Related(fr.(locals := fr.locals[x := v], frozen := fr.frozen - {x}),
                    fr'.(locals := fr'.locals[x := v], frozen := fr'.frozen - {x}), After(Let(x, e), u))
  {
    var g, g' := fr.(locals := fr.locals[x := v]), fr'.(locals := fr'.locals[x := v]);
    var u' := After(Let(x, e), u);
    forall y | y in g'.locals.Keys
      ensures Agree(y, Lookup(g, y).value, g'.locals[y], u')
    {
      if y == x {
        AgreeSelf(x, v, u');
      } else {
        assert y in fr'.locals.Keys;
        AgreeShrinks(y, Lookup(fr, y).value, fr'.locals[y], u, u', x);
      }
    }
  }

  lemma BindSimulated(fr: Frame, fr': Frame, u: Places, f: Ident, args: seq<Arg>, vs: seq<Value>)
    requires Related(fr, fr', u) && |vs| == |Targets(args)|
    requires forall x :: x in Targets(args) ==> x !in fr.refs
    ensures Related(fr.(locals := Bind(fr.locals, Targets(args), vs)),
                    fr'.(locals := Bind(fr'.locals, Targets(args), vs), frozen := fr'.frozen + Elements(Targets(args))),
                    After(Call(f, args), u))
  {
    var xs := Targets(args);
    var g := fr.(locals := Bind(fr.locals, xs, vs));
    var g' := fr'.(locals := Bind(fr'.locals, xs, vs));
    var u' := After(Call(f, args), u);
    forall y
      ensures y in g.locals <==> y in fr.locals || y in xs
      ensures y in g'.locals <==> y in fr'.locals || y in xs
    {
      BindKeys(fr.locals, xs, vs, y);
      BindKeys(fr'.locals, xs, vs, y);
    }
    forall y | y in g'.locals.Keys
      ensures Agree(y, Lookup(g, y).value, g'.locals[y], u')
    {
      BindKeys(fr.locals, xs, vs, y);
      BindKeys(fr'.locals, xs, vs, y);
      if y in xs {
        BindSame(fr.locals, fr'.locals, xs, vs, y);
        AgreeSelf(y, g'.locals[y], u');
      } else {
        assert y in fr'.locals.Keys;
        var v, w := Lookup(fr, y).value, fr'.locals[y];
        if v.Arr? {
          forall i: nat | i < |v.elems|
            ensures Untouched(y, i, u') || v.elems[i] == w.elems[i]
          {
            assert Untouched(y, i, u) || v.elems[i] == w.elems[i];
          }
        }
      }
    }
    assert g'.locals.Keys == g.locals.Keys + g.refs.Keys;
  }

  lemma {:induction false} StmtPreserved(pr: Program, pr': Program, prim: Prim, depth: nat, s: Stmt,
                                         u: Places, fr: Frame, fr': Frame)
    returns (next': Frame)
    requires Rewritten(pr, pr') && GoodProgram(pr)
    requires Related(fr, fr', u) && GoodStmt(s, fr.refs.Keys, u, fr'.frozen, pr)
    requires fr.frozen == {}
    requires RewriteStmt(s).Ok?
    requires ExecStmt(pr, prim, depth, s, fr).Some?
    ensures ExecStmt(pr', prim, depth, RewriteStmt(s).value, fr') == Some(next')
    ensures Related(ExecStmt(pr, prim, depth, s, fr).value, next', After(s, u))
    ensures ExecStmt(pr, prim, depth, s, fr).value.refs.Keys == fr.refs.Keys
    ensures ExecStmt(pr, prim, depth, s, fr).value.frozen == {} && next'.frozen == FrozenAfter(s, fr'.frozen)
    decreases depth, 0, 0
  {
    hide EvalExpr, EvalArgs, EvalExprs, Bind, Store, Related, SameOutputs, After, Aligned, ArgsReadWritten, FindFn,
         GoodProgram, Rewritten, Targets, PlainArgs, ValuesOf, ReadsWritten;
    match s {
      case Let(_, _) =>
        next' := LocalStmtPreserved(pr, pr', prim, depth, s, u, fr, fr');
      case Assign(_, _) =>
        next' := LocalStmtPreserved(pr, pr', prim, depth, s, u, fr, fr');
      case Call(f, args) =>
        ArgsSimulated(prim, args, fr, fr', u);
        var vals := EvalArgs(prim, args, fr).value;
        FnPreserved(pr, pr', prim, depth - 1, f, vals);
        next' := CallSimulated(pr, pr', prim, depth, f, args, u, fr, fr');
    }
  }

  /** Statements that call nothing. */
  lemma LocalStmtPreserved(pr: Program, pr': Program, prim: Prim, depth: nat, s: Stmt,
                           u: Places, fr: Frame, fr': Frame)
    returns (next': Frame)
    requires s.Let? || s.Assign?
    requires Related(fr, fr', u) && GoodStmt(s, fr.refs.Keys, u, fr'.frozen, pr)
    requires fr.frozen == {}
    requires ExecStmt(pr, prim, depth, s, fr).Some?
    ensures RewriteStmt(s).Ok? && ExecStmt(pr', prim, depth, RewriteStmt(s).value, fr') == Some(next')
    ensures Related(ExecStmt(pr, prim, depth, s, fr).value, next', After(s, u))
    ensures ExecStmt(pr, prim, depth, s, fr).value.refs.Keys == fr.refs.Keys
    ensures ExecStmt(pr, prim, depth, s, fr).value.frozen == {} && next'.frozen == FrozenAfter(s, fr'.frozen)
  {
    hide Related, After, EvalExpr, Store;
    ExprSimulated(prim, s.e, fr, fr', u);
    var v := EvalExpr(prim, s.e, fr).value;
    if s.Let? {
      LetSimulated(fr, fr', u, s.x, s.e, v);
      next' := fr'.(locals := fr'.locals[s.x := v], frozen := fr'.frozen - {s.x});
    } else {
      StoreSimulated(fr, fr', u, s.place, s.e, v);
      next' := Store(fr', RewriteStmt(s).value.place, v).value;
    }
  }

  /** A call, when the callee returns the values that the original leaves behind. */
  lemma CallSimulated(pr: Program, pr': Program, prim: Prim, depth: nat, f: Ident, args: seq<Arg>,
                      u: Places, fr: Frame, fr': Frame)
    returns (next': Frame)
    requires Related(fr, fr', u) && depth > 0 && TargetsAreVars(args)
    requires forall x :: x in Targets(args) ==> x !in fr.refs
    requires ExecStmt(pr, prim, depth, Call(f, args), fr).Some?
    requires EvalArgs(prim, args, fr).Some?
    requires EvalExprs(prim, PlainArgs(args), fr') == Some(ValuesOf(EvalArgs(prim, args, fr).value))
    requires var vals := EvalArgs(prim, args, fr).value;
             var o' := EvalFn(pr', prim, depth - 1, f, ByValues(ValuesOf(vals)));
             o'.Some? && EvalFn(pr, prim, depth - 1, f, vals).Some?
             && o'.value.ret == EvalFn(pr, prim, depth - 1, f, vals).value.outs
    ensures ExecStmt(pr', prim, depth, LetTuple(Targets(args), f, PlainArgs(args)), fr') == Some(next')
    ensures Related(ExecStmt(pr, prim, depth, Call(f, args), fr).value, next', After(Call(f, args), u))
    ensures ExecStmt(pr, prim, depth, Call(f, args), fr).value.refs == fr.refs
    ensures ExecStmt(pr, prim, depth, Call(f, args), fr).value.frozen == fr.frozen
    ensures next'.frozen == fr'.frozen + Elements(Targets(args))
  {
    hide EvalFn, EvalArgs, EvalExprs, Bind, Related;
    var outs := EvalFn(pr, prim, depth - 1, f, EvalArgs(prim, args, fr).value).value.outs;
    BindSimulated(fr, fr', u, f, args, outs);
    next' := fr'.(locals := Bind(fr'.locals, Targets(args), outs), frozen := fr'.frozen + Elements(Targets(args)));
  }

  /** A rewritten body keeps step with the original, and ends with its values in every output that
      has been fully written. */
  lemma {:induction false} BodyPreserved(pr: Program, pr': Program, prim: Prim, depth: nat, body: seq<Stmt>,
                                         u: Places, fr: Frame, fr': Frame)
    returns (end': Frame)
    requires Rewritten(pr, pr') && GoodProgram(pr)
    requires Related(fr, fr', u) && Careful(body, fr.refs.Keys, u, fr'.frozen, pr)
    requires fr.frozen == {}
    requires RewriteStmts(body).Ok?
    requires ExecStmts(pr, prim, depth, body, fr).Some?
    ensures ExecStmts(pr', prim, depth, RewriteStmts(body).value, fr') == Some(end')
    ensures var end := ExecStmts(pr, prim, depth, body, fr).value;
            && Related(end, end', Unwritten(body, u)) && end.refs.Keys == fr.refs.Keys
            && forall x :: x in fr.refs.Keys && Whole(x, Unwritten(body, u)) ==>
                 x in end'.locals && end'.locals[x] == end.refs[x]
    decreases depth, 0, |body|
  {
    if body == [] {
      end' := fr';
      WholeOutputs(fr, fr', u);
    } else {
      var next' := StmtPreserved(pr, pr', prim, depth, body[0], u, fr, fr');
      var next := ExecStmt(pr, prim, depth, body[0], fr).value;
      end' := BodyPreserved(pr, pr', prim, depth, body[1..], After(body[0], u), next, next');
      assert RewriteStmts(body).value[1..] == RewriteStmts(body[1..]).value;
    }
  }

  lemma WholeOutputs(fr: Frame, fr': Frame, u: Places)
    requires Related(fr, fr', u)
    ensures forall x :: x in fr.refs.Keys && Whole(x, u) ==> x in fr'.locals && fr'.locals[x] == fr.refs[x]
  {
    forall x | x in fr.refs.Keys && Whole(x, u)
      ensures x in fr'.locals && fr'.locals[x] == fr.refs[x]
    {
      assert x in fr'.locals.Keys;
      AgreeWhole(x, fr.refs[x], fr'.locals[x], u);
    }
  }

  /** The returned tuple holds, under every name, what the original leaves under that name. */
  ghost predicate SameOutputs(params: seq<Param>, outs: seq<Value>, ret: seq<Value>) {
    && OutputsOf(params, []).Ok?
    && var names := OutNames(params);
    && var sorted := Keys(OutputsOf(params, []).value);
    && |outs| == |names| && |ret| == |sorted|
    && (forall x :: x in names <==> x in sorted)
    && forall i, j :: 0 <= i < |names| && 0 <= j < |sorted| && names[i] == sorted[j] ==> outs[i] == ret[j]
  }

  /** The values are of the types of the outputs. */
  ghost predicate Typed(params: seq<Param>, outs: seq<Value>, reg: Registry) {
    && |outs| == |MutParams(params)|
    && forall i :: 0 <= i < |outs| ==> HasType(outs[i], MutParams(params)[i].ty, reg)
  }

  lemma AlignedIsSorted(params: seq<Param>, reg: Registry, outs: seq<Value>, ret: seq<Value>)
    requires SameOutputs(params, outs, ret) && Aligned(params, reg) && Typed(params, outs, reg)
    ensures ret == outs
  {
    var sorted, names := Keys(OutputsOf(params, []).value), OutNames(params);
    OutputsOfIncreasing(params, []);
    IncreasingDistinct(sorted);
    forall i | 0 <= i < |names|
      ensures ret[i] == outs[i]
    {
      assert sorted[i] in sorted && sorted[i] in names;
      var j :| 0 <= j < |names| && names[j] == sorted[i];
      assert outs[j] == ret[i];
      if j != i {
        assert sorted[j] != names[j];
        assert HasShape(outs[j], ArrayShape(0)) && HasShape(outs[i], ArrayShape(0)) by {
          assert sorted[i] != names[i] || names[i] == names[j];
        }
      }
    }
  }

  lemma IncreasingAligned(params: seq<Param>, reg: Registry)
    requires OutputsOf(params, []).Ok? && Increasing(OutNames(params))
    ensures Aligned(params, reg)
  {
    var sorted := Keys(OutputsOf(params, []).value);
    OutputsOfIncreasing(params, []);
    forall x
      ensures x in OutNames(params) <==> x in sorted
    {
      OutputKeys(params, x);
    }
    IncreasingUnique(OutNames(params), sorted);
  }

  /** Running code keeps the references of a frame and the types of what they point to. */
  lemma {:induction false} RefsKept(pr: Program, prim: Prim, depth: nat, body: seq<Stmt>, fr: Frame)
    requires ExecStmts(pr, prim, depth, body, fr).Some?
    ensures var end := ExecStmts(pr, prim, depth, body, fr).value;
            end.refs.Keys == fr.refs.Keys && forall x :: x in fr.refs ==> SameShape(fr.refs[x], end.refs[x])
    decreases |body|
  {
    if body != [] {
      RefsKept(pr, prim, depth, body[1..], ExecStmt(pr, prim, depth, body[0], fr).value);
    }
  }

  lemma OutsTyped(pr: Program, prim: Prim, depth: nat, fn: Fn, args: seq<ArgVal>)
    requires RunFn(pr, prim, depth, fn, args).Some? && Distinct(Names(fn.params))
    ensures Typed(fn.params, RunFn(pr, prim, depth, fn, args).value.outs, pr.reg)
  {
    var fr := BindParams(fn.params, args, pr.reg).value;
    EntryFrame(fn.params, args, pr.reg);
    RefsKept(pr, prim, depth, fn.body, fr);
    var outs := RunFn(pr, prim, depth, fn, args).value.outs;
    forall i | 0 <= i < |outs|
      ensures HasType(outs[i], MutParams(fn.params)[i].ty, pr.reg)
    {
      var p := MutParams(fn.params)[i];
      assert p in MutParams(fn.params);
      assert HasType(fr.refs[p.name], p.ty, pr.reg);
    }
  }

  /** The rewritten function returns the outputs of the original one. */
  ghost predicate RunAgrees(pr: Program, pr': Program, prim: Prim, depth: nat, fn: Fn, fn': Fn, args: seq<ArgVal>) {
    var o := RunFn(pr, prim, depth, fn, args);
    var o' := RunFn(pr', prim, depth, fn', ByValues(ValuesOf(args)));
    && o.Some? && o'.Some? && o'.value.outs == []
    && SameOutputs(fn.params, o.value.outs, o'.value.ret)
    && (Aligned(fn.params, pr.reg) ==> o'.value.ret == o.value.outs)
  }

  /** Meaning preservation for one run, at every depth of the call graph. */
  lemma {:induction false} RunPreserved(pr: Program, pr': Program, prim: Prim, depth: nat, fn: Fn, fn': Fn,
                                        args: seq<ArgVal>)
    requires Rewritten(pr, pr') && GoodProgram(pr)
    requires RewriteFn(fn, pr.reg) == Ok(fn') && GoodFn(fn, pr)
    requires RunFn(pr, prim, depth, fn, args).Some?
    ensures RunAgrees(pr, pr', prim, depth, fn, fn', args)
    decreases depth, 1, 0
  {
    hide Related, ExecStmts, ExecStmt, EntryPlaces, Careful, Unwritten, Aligned, SameOutputs, RewriteFn, BindParams,
         OutputsOf, RunFn, MutParams, Typed;
    var end, end' := RunSimulated(pr, pr', prim, depth, fn, fn', args);
    ResultsMatch(fn.params, end, end');
    RunIs(pr, prim, depth, fn, args, end);
    RunIs(pr', prim, depth, fn', ByValues(ValuesOf(args)), end');
    if Aligned(fn.params, pr.reg) {
      OutsTyped(pr, prim, depth, fn, args);
      AlignedIsSorted(fn.params, pr.reg, RunFn(pr, prim, depth, fn, args).value.outs,
                      RunFn(pr', prim, depth, fn', ByValues(ValuesOf(args))).value.ret);
    }
  }

  /** A run whose last frame is `end`. */
  lemma RunIs(pr: Program, prim: Prim, depth: nat, fn: Fn, args: seq<ArgVal>, end: Frame)
    requires BindParams(fn.params, args, pr.reg).Some?
    requires ExecStmts(pr, prim, depth, fn.body, BindParams(fn.params, args, pr.reg).value) == Some(end)
    ensures var outs, ret := Select(end.refs, OutNames(fn.params)), Select(end.locals, fn.result);
            RunFn(pr, prim, depth, fn, args)
            == if outs.Some? && ret.Some? then Some(Outcome(outs.value, ret.value)) else None
  {
    hide ExecStmts, BindParams, Select;
  }

  /** The frames in which a run of a careful function and of its rewrite end. */
  lemma {:induction false} RunSimulated(pr: Program, pr': Program, prim: Prim, depth: nat, fn: Fn, fn': Fn,
                                        args: seq<ArgVal>)
    returns (end: Frame, end': Frame)
    requires Rewritten(pr, pr') && GoodProgram(pr)
    requires RewriteFn(fn, pr.reg) == Ok(fn') && CarefulFn(fn, pr)
    requires RunFn(pr, prim, depth, fn, args).Some?
    ensures BindParams(fn.params, args, pr.reg).Some?
    ensures ExecStmts(pr, prim, depth, fn.body, BindParams(fn.params, args, pr.reg).value) == Some(end)
    ensures var entry' := BindParams(fn'.params, ByValues(ValuesOf(args)), pr'.reg);
            entry'.Some? && ExecStmts(pr', prim, depth, fn'.body, entry'.value) == Some(end')
    ensures OutNames(fn'.params) == [] && OutputsOf(fn.params, []).Ok?
    ensures fn'.result == Keys(OutputsOf(fn.params, []).value)
    ensures end.refs.Keys == Elements(OutNames(fn.params))
    ensures var u := Unwritten(fn.body, EntryPlaces(MutParams(fn.params), pr.reg));
            && Related(end, end', u)
            && forall x :: x in OutNames(fn.params) && Whole(x, u) ==> x in end'.locals && end'.locals[x] == end.refs[x]
    decreases depth, 0, |fn.body| + 1
  {
    hide BindParams, Related, ExecStmts, ExecStmt, EntryPlaces, Careful, Unwritten, Select, RewriteStmts, Inputs,
         LetBindings;
    var fr := BindParams(fn.params, args, pr.reg).value;
    var fr' := EntrySimulated(pr', prim, depth, fn, fn', args);
    end := ExecStmts(pr, prim, depth, fn.body, fr).value;
    end' := BodyPreserved(pr, pr', prim, depth, fn.body, EntryPlaces(MutParams(fn.params), pr.reg), fr, fr');
  }

  /** Meaning preservation for one call. */
  lemma {:induction false} FnPreserved(pr: Program, pr': Program, prim: Prim, depth: nat, f: Ident, args: seq<ArgVal>)
    requires Rewritten(pr, pr') && GoodProgram(pr)
    requires EvalFn(pr, prim, depth, f, args).Some?
    ensures FindFn(pr.fns, f).Some?
    ensures EvalFn(pr', prim, depth, f, ByValues(ValuesOf(args))).Some?
    ensures var o := EvalFn(pr, prim, depth, f, args).value;
            var o' := EvalFn(pr', prim, depth, f, ByValues(ValuesOf(args))).value;
            var params := FindFn(pr.fns, f).value.params;
            && o'.outs == [] && SameOutputs(params, o.outs, o'.ret)
            && (Aligned(params, pr.reg) ==> o'.ret == o.outs)
    decreases depth, 2, 0
  {
    hide SameOutputs, Aligned, RunFn, RewriteFn, GoodFn;
    FindRewritten(pr.fns, pr'.fns, pr.reg, f);
    var fn, fn' := FindFn(pr.fns, f).value, FindFn(pr'.fns, f).value;
    assert GoodFn(fn, pr);
    RunPreserved(pr, pr', prim, depth, fn, fn', args);
  }

  /** A function that has been called has outputs with a layout. */
  lemma OutputsShaped(params: seq<Param>, args: seq<ArgVal>, reg: Registry)
    requires BindParams(params, args, reg).Some? && Distinct(Names(params)) && OutputsOf(params, []).Ok?
    ensures AllShaped(OutputsOf(params, []).value, reg)
  {
    var outputs := OutputsOf(params, []).value;
    OutputsOfIncreasing(params, []);
    EntryFrame(params, args, reg);
    forall o | o in outputs
      ensures ShapeOf(o.1, reg).Some?
    {
      var i :| 0 <= i < |outputs| && outputs[i] == o;
      assert Keys(outputs)[i] in Keys(outputs);
      OutputKeys(params, o.0);
      OutNamesAre(params, o.0);
      var p :| p in params && p.ByMutRef? && p.name == o.0;
      OutputsGet(params, [], o.0);
      GetEntry(outputs, i);
    }
  }

  /** Entering the rewritten function: parameters, then zeros for the outputs. */
  lemma EntrySimulated(pr': Program, prim: Prim, depth: nat, fn: Fn, fn': Fn, args: seq<ArgVal>)
    returns (fr': Frame)
    requires RewriteFn(fn, pr'.reg) == Ok(fn') && Distinct(Names(fn.params))
    requires BindParams(fn.params, args, pr'.reg).Some?
    ensures Related(BindParams(fn.params, args, pr'.reg).value, fr', EntryPlaces(MutParams(fn.params), pr'.reg))
    ensures BindParams(fn.params, args, pr'.reg).value.refs.Keys == Elements(OutNames(fn.params))
    ensures BindParams(fn.params, args, pr'.reg).value.frozen == {} == fr'.frozen
    ensures Initialised(OutputsOf(fn.params, []).value, pr'.reg, fr'.locals)
    ensures BindParams(fn'.params, ByValues(ValuesOf(args)), pr'.reg).Some?
    ensures ExecStmts(pr', prim, depth, fn'.body, BindParams(fn'.params, ByValues(ValuesOf(args)), pr'.reg).value)
            == ExecStmts(pr', prim, depth, RewriteStmts(fn.body).value, fr')
    ensures OutNames(fn'.params) == []
  {
    var reg := pr'.reg;
    var outputs := OutputsOf(fn.params, []).value;
    OutputsOfIncreasing(fn.params, []);
    var fr := BindParams(fn.params, args, reg).value;
    ParamsSimulated(fn.params, args, reg);
    OutputsShaped(fn.params, args, reg);
    LetsRun(pr', prim, depth, outputs, reg, RewriteStmts(fn.body).value, Frame(fr.locals, map[], {}));
    WithZerosHas(fr.locals, outputs, reg);
    fr' := Frame(WithZeros(fr.locals, outputs, reg), map[], {});
    EntryRelated(fn.params, args, reg, outputs, fr');
    InputsHaveNoOutputs(fn.params);
  }

  /** The results taken from two final frames that hold the same outputs. */
  lemma ResultsMatch(params: seq<Param>, end: Frame, end': Frame)
    requires OutputsOf(params, []).Ok?
    requires end.refs.Keys == Elements(OutNames(params))
    requires forall x :: x in OutNames(params) ==> x in end.refs && x in end'.locals && end'.locals[x] == end.refs[x]
    ensures var outs := Select(end.refs, OutNames(params));
            var ret := Select(end'.locals, Keys(OutputsOf(params, []).value));
            outs.Some? && ret.Some? && SameOutputs(params, outs.value, ret.value)
  {
    var sorted := Keys(OutputsOf(params, []).value);
    forall x
      ensures x in sorted <==> x in OutNames(params)
    {
      OutputKeys(params, x);
    }
    hide OutputsOf, OutNames;
  }

  lemma {:induction false} InputsHaveNoOutputs(params: seq<Param>)
    ensures MutParams(Inputs(params)) == []
  {
    if params != [] {
      InputsHaveNoOutputs(params[1..]);
      if params[0].ByValue? {
        assert Inputs(params)[1..] == Inputs(params[1..]);
      } else {
        assert Inputs(params) == Inputs(params[1..]);
      }
    }
  }
}
