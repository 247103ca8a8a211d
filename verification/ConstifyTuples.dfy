/** Where the values of a rewritten call go: tuples are ordered by name, patterns by argument. */
module ConstifyTuples {
  import opened Common
  import opened OrderedMap
  import opened ConstifySyntax
  import opened ConstifyTypes
  import opened ConstifySemantics
  import opened ConstifyRewrite
  import opened ConstifyPreservation

  /** A signature that the tool accepts and for which it emits defaults that type-check. */
  ghost predicate Accepted(params: seq<Param>, reg: Registry) {
    && Distinct(Names(params)) && reg.Keys !! PRIMITIVES
    && OutputsOf(params, []).Ok? && OutputsOf(params, []).value != []
    && LetBindings(OutputsOf(params, []).value, reg).Ok?
    && OutputsHaveShape(params, reg)
  }

  predicate OutputsHaveShape(params: seq<Param>, reg: Registry) {
    forall p :: p in params && p.ByMutRef? ==> ShapeOf(p.ty, reg).Some?
  }

  /** `pr'` is the rewrite of `pr`, in which a call of `f`, a function with the parameters `params`,
      runs in the frame `fr`. */
  ghost predicate CallRuns(pr: Program, pr': Program, prim: Prim, depth: nat, f: Ident, params: seq<Param>,
                           args: seq<Arg>, fr: Frame) {
    && GoodProgram(pr) && Rewritten(pr, pr')
    && FindFn(pr.fns, f).Some? && FindFn(pr.fns, f).value.params == params
    && fr.refs == map[] && fr.frozen == {} && TargetsAreVars(args)
    && ExecStmt(pr, prim, depth, Call(f, args), fr).Some?
  }

  /** The rewritten call leaves in every variable what the original call leaves there. */
  ghost predicate CallAgrees(pr: Program, pr': Program, prim: Prim, depth: nat, f: Ident, args: seq<Arg>, fr: Frame) {
    var s := RewriteStmt(Call(f, args));
    && s.Ok?
    && var end := ExecStmt(pr, prim, depth, Call(f, args), fr);
    && var end' := ExecStmt(pr', prim, depth, s.value, fr);
    && end.Some? && end'.Some? && end'.value.locals == end.value.locals
  }

  /** In every program, every call of a function with this signature agrees with its rewrite. */
  ghost predicate CallsAgree(params: seq<Param>, reg: Registry) {
    forall pr: Program, pr': Program, prim, depth: nat, f, args, fr ::
      pr.reg == reg && CallRuns(pr, pr', prim, depth, f, params, args, fr) ==>
        CallAgrees(pr, pr', prim, depth, f, args, fr)
  }

  // ----- outputs in order -----

  lemma {:induction false} ReadsLocals(prim: Prim, e: Expr, fr: Frame)
    requires fr.refs == map[] && EvalExpr(prim, e, fr).Some?
    ensures ReadsWritten(e, {})
  {
    if e.Op? {
      ReadsLocals(prim, e.left, fr);
      ReadsLocals(prim, e.right, fr);
    }
  }

  lemma {:induction false} ArgsReadLocals(prim: Prim, args: seq<Arg>, fr: Frame)
    requires fr.refs == map[] && EvalArgs(prim, args, fr).Some?
    ensures ArgsReadWritten(args, {})
  {
    if args != [] {
      ArgsReadLocals(prim, args[1..], fr);
      if args[0].Plain? {
        ReadsLocals(prim, args[0].e, fr);
      }
    }
  }

  lemma RelatedSelf(fr: Frame)
    requires fr.refs == map[]
    ensures Related(fr, fr, {})
  {
    forall x | x in fr.locals.Keys
      ensures Agree(x, Lookup(fr, x).value, fr.locals[x], {})
    {
      AgreeSelf(x, fr.locals[x], {});
    }
  }

  /** What a rewritten call binds: the returned values instead of the ones left behind. */
  lemma RewrittenCall(pr: Program, pr': Program, prim: Prim, depth: nat, f: Ident, params: seq<Param>,
                      args: seq<Arg>, fr: Frame) returns (outs: seq<Value>, ret: seq<Value>)
    requires CallRuns(pr, pr', prim, depth, f, params, args, fr)
    ensures |outs| == |Targets(args)| && Distinct(Targets(args))
    ensures ExecStmt(pr, prim, depth, Call(f, args), fr).value.locals == Bind(fr.locals, Targets(args), outs)
    ensures SameOutputs(params, outs, ret)
    ensures Aligned(params, pr.reg) ==> ret == outs
    ensures depth > 0 && EvalArgs(prim, args, fr).Some?
    ensures EvalFn(pr, prim, depth - 1, f, EvalArgs(prim, args, fr).value).Some?
    ensures outs == EvalFn(pr, prim, depth - 1, f, EvalArgs(prim, args, fr).value).value.outs
    ensures var end' := ExecStmt(pr', prim, depth, RewriteStmt(Call(f, args)).value, fr);
            end'.Some? <==> |ret| == |Targets(args)|
    ensures var end' := ExecStmt(pr', prim, depth, RewriteStmt(Call(f, args)).value, fr);
            |ret| == |Targets(args)| ==> end'.value.locals == Bind(fr.locals, Targets(args), ret)
  {
    hide EvalArgs, EvalExprs, Bind, Related, SameOutputs, Aligned, GoodProgram, Rewritten;
    var vals := EvalArgs(prim, args, fr).value;
    ArgsReadLocals(prim, args, fr);
    RelatedSelf(fr);
    ArgsSimulated(prim, args, fr, fr, {});
    FnPreserved(pr, pr', prim, depth - 1, f, vals);
    outs := EvalFn(pr, prim, depth - 1, f, vals).value.outs;
    ret := EvalFn(pr', prim, depth - 1, f, ByValues(ValuesOf(vals))).value.ret;
  }

  lemma AlignedCallsAgree(params: seq<Param>, reg: Registry)
    requires Aligned(params, reg)
    ensures CallsAgree(params, reg)
  {
    forall pr: Program, pr': Program, prim, depth: nat, f, args, fr |
      pr.reg == reg && CallRuns(pr, pr', prim, depth, f, params, args, fr)
      ensures CallAgrees(pr, pr', prim, depth, f, args, fr)
    {
      var outs, ret := RewrittenCall(pr, pr', prim, depth, f, params, args, fr);
    }
  }

  // ----- names and bindings -----

  lemma {:induction false} BindAt(locals: map<Ident, Value>, xs: seq<Ident>, vs: seq<Value>, i: nat)
    requires Distinct(xs) && |xs| == |vs| && i < |xs|
    ensures xs[i] in Bind(locals, xs, vs) && Bind(locals, xs, vs)[xs[i]] == vs[i]
    decreases |xs|
  {
    if i == 0 {
      BindKeys(locals[xs[0] := vs[0]], xs[1..], vs[1..], xs[0]);
    } else {
      BindAt(locals[xs[0] := vs[0]], xs[1..], vs[1..], i - 1);
    }
  }

  // ----- a callee that marks one output -----

  function LiteralFor(ty: Type, reg: Registry, n: int): Expr {
    match ShapeOf(ty, reg)
    case Some(ArrayShape(len)) => Fill(n, len)
    case _ => Lit(n)
  }

  function Mark(x: Ident, hot: Ident): int {
    if x == hot then 1 else 0
  }

  /** Writes ones to the output `hot` and zeros to the others. */
  function Writes(outs: seq<Param>, hot: Ident, reg: Registry): seq<Stmt> {
    if outs == [] then []
    else
      [Assign(PlaceDeref(outs[0].name), LiteralFor(outs[0].ty, reg, Mark(outs[0].name, hot)))]
      + Writes(outs[1..], hot, reg)
  }

  lemma {:induction false} WritesGood(outs: seq<Param>, hot: Ident, names: set<Ident>, u: Places, pr: Program)
    requires forall q :: q in u ==> q.0 in Names(outs)
    ensures Careful(Writes(outs, hot, pr.reg), names, u, {}, pr) && Unwritten(Writes(outs, hot, pr.reg), u) == {}
    decreases |outs|
  {
    var body := Writes(outs, hot, pr.reg);
    if outs != [] {
      assert body[1..] == Writes(outs[1..], hot, pr.reg);
      assert Names(outs) == [outs[0].name] + Names(outs[1..]);
      WritesGood(outs[1..], hot, names, After(body[0], u), pr);
    }
  }

  lemma {:induction false} WritesRewritten(outs: seq<Param>, hot: Ident, reg: Registry)
    ensures RewriteStmts(Writes(outs, hot, reg)).Ok?
  {
    if outs != [] {
      WritesRewritten(outs[1..], hot, reg);
      assert Writes(outs, hot, reg)[1..] == Writes(outs[1..], hot, reg);
    }
  }

  ghost predicate CanWrite(outs: seq<Param>, reg: Registry, fr: Frame) {
    forall p :: p in outs ==> p.name in fr.refs && p.name !in fr.locals && HasType(fr.refs[p.name], p.ty, reg)
  }

  lemma WriteRuns(pr: Program, prim: Prim, depth: nat, p: Param, n: int, fr: Frame)
    requires p.name in fr.refs && p.name !in fr.locals && HasType(fr.refs[p.name], p.ty, pr.reg)
    ensures ExecStmt(pr, prim, depth, Assign(PlaceDeref(p.name), LiteralFor(p.ty, pr.reg, n)), fr)
            == Some(fr.(refs := fr.refs[p.name := ValueFor(p.ty, pr.reg, n)]))
  {
    hide ShapeOf;
  }

  lemma FirstNameOnly(outs: seq<Param>)
    requires outs != [] && Distinct(Names(outs))
    ensures Distinct(Names(outs[1..])) && Names(outs) == [outs[0].name] + Names(outs[1..])
    ensures outs[0].name !in Names(outs[1..])
    ensures forall q :: q in outs[1..] ==> q.name != outs[0].name && q.name in Names(outs[1..])
  {
    var names, rest := Names(outs), Names(outs[1..]);
    assert names == [outs[0].name] + rest;
    TailDistinct(names, rest);
    hide Distinct;
    forall q | q in outs[1..]
      ensures q.name in rest
    {
      var i :| 0 <= i < |outs[1..]| && outs[1..][i] == q;
      assert rest[i] == q.name;
    }
  }

  lemma TailDistinct(names: seq<Ident>, rest: seq<Ident>)
    requires names != [] && rest == names[1..] && Distinct(names)
    ensures Distinct(rest) && names[0] !in rest
  {
    assert forall i :: 0 <= i < |rest| ==> rest[i] == names[i + 1];
  }

  lemma {:induction false} WritesRun(pr: Program, prim: Prim, depth: nat, outs: seq<Param>, hot: Ident, fr: Frame)
    requires Distinct(Names(outs)) && CanWrite(outs, pr.reg, fr)
    ensures var end := ExecStmts(pr, prim, depth, Writes(outs, hot, pr.reg), fr);
            && end.Some? && end.value.refs.Keys == fr.refs.Keys
            && (forall p :: p in outs ==> end.value.refs[p.name] == ValueFor(p.ty, pr.reg, Mark(p.name, hot)))
            && (forall x :: x in fr.refs && x !in Names(outs) ==> end.value.refs[x] == fr.refs[x])
    decreases |outs|
  {
    if outs != [] {
      var p, body := outs[0], Writes(outs, hot, pr.reg);
      var v := ValueFor(p.ty, pr.reg, Mark(p.name, hot));
      assert p in outs;
      var next := fr.(refs := fr.refs[p.name := v]);
      WriteRuns(pr, prim, depth, p, Mark(p.name, hot), fr);
      assert body[1..] == Writes(outs[1..], hot, pr.reg);
      FirstNameOnly(outs);
      hide ExecStmt, HasType, ValueFor, LiteralFor, Names;
      assert CanWrite(outs[1..], pr.reg, next);
      WritesRun(pr, prim, depth, outs[1..], hot, next);
      assert outs == [p] + outs[1..];
    }
  }

  // ----- a caller for every signature -----

  function CallArgs(params: seq<Param>): seq<Arg> {
    if params == [] then []
    else [if params[0].ByValue? then Plain(Lit(0)) else MutRef(PlaceVar(params[0].name))] + CallArgs(params[1..])
  }

  function CallVals(params: seq<Param>, reg: Registry): seq<ArgVal> {
    if params == [] then []
    else
      [if params[0].ByValue? then PassValue(Scalar(0)) else PassRef(ValueFor(params[0].ty, reg, 0))]
      + CallVals(params[1..], reg)
  }

  function CallerLocals(params: seq<Param>, reg: Registry): map<Ident, Value> {
    if params == [] then map[] else CallerLocals(params[1..], reg)[params[0].name := ValueFor(params[0].ty, reg, 0)]
  }

  ghost predicate HoldsZeros(params: seq<Param>, reg: Registry, locals: map<Ident, Value>) {
    forall p :: p in params ==> p.name in locals && locals[p.name] == ValueFor(p.ty, reg, 0)
  }

  lemma {:induction false} CallerHoldsZeros(params: seq<Param>, reg: Registry)
    requires Distinct(Names(params))
    ensures HoldsZeros(params, reg, CallerLocals(params, reg))
  {
    if params != [] {
      FirstNameOnly(params);
      CallerHoldsZeros(params[1..], reg);
    }
  }

  lemma FirstTarget(a: Arg, args: seq<Arg>)
    requires TargetsAreVars(args) && (a.MutRef? ==> a.target.PlaceVar?)
    ensures TargetsAreVars([a] + args)
    ensures Targets([a] + args) == if a.MutRef? then [a.target.x] + Targets(args) else Targets(args)
  {
    assert ([a] + args)[1..] == args;
    FirstArg([a] + args);
  }

  lemma {:induction false} CallTargets(params: seq<Param>)
    ensures Targets(CallArgs(params)) == OutNames(params) && TargetsAreVars(CallArgs(params))
  {
    NoArgs();
    assert OutNames([]) == [];
    hide Targets, TargetsAreVars, OutNames;
    if params != [] {
      CallTargets(params[1..]);
      FirstOutName(params);
      FirstTarget(CallArgs(params)[0], CallArgs(params[1..]));
    }
  }

  lemma {:induction false} CallArgsRun(prim: Prim, params: seq<Param>, reg: Registry, fr: Frame)
    requires HoldsZeros(params, reg, fr.locals) && fr.frozen == {}
    ensures EvalArgs(prim, CallArgs(params), fr) == Some(CallVals(params, reg))
  {
    if params != [] {
      assert params[0] in params;
      CallArgsRun(prim, params[1..], reg, fr);
      assert CallArgs(params)[1..] == CallArgs(params[1..]);
    }
  }

  lemma {:induction false} CallValsBind(params: seq<Param>, reg: Registry)
    requires OutputsHaveShape(params, reg)
    ensures BindParams(params, CallVals(params, reg), reg).Some?
  {
    if params != [] {
      assert params[0] in params;
      CallValsBind(params[1..], reg);
      assert CallVals(params, reg)[1..] == CallVals(params[1..], reg);
    }
  }

  // ----- the exact condition -----

  function Marker(f: Ident, params: seq<Param>, hot: Ident, reg: Registry): Fn {
    Fn(f, false, params, [], Writes(MutParams(params), hot, reg), [])
  }

  lemma MarkerRewritten(f: Ident, params: seq<Param>, hot: Ident, reg: Registry) returns (pr: Program, pr': Program)
    requires Accepted(params, reg)
    ensures pr == Program(reg, [Marker(f, params, hot, reg)])
    ensures Rewritten(pr, pr') && GoodProgram(pr)
  {
    var g := Marker(f, params, hot, reg);
    pr := Program(reg, [g]);
    WritesRewritten(MutParams(params), hot, reg);
    pr' := Program(reg, [RewriteFn(g, reg).value]);
    EntryPlacesNamed(MutParams(params), reg);
    WritesGood(MutParams(params), hot, Elements(OutNames(params)), EntryPlaces(MutParams(params), reg), pr);
  }

  /** The outputs after the marker has run, in the order of the signature. */
  ghost predicate Marked(params: seq<Param>, hot: Ident, reg: Registry, outs: seq<Value>) {
    && |outs| == |OutNames(params)|
    && forall i :: 0 <= i < |outs| ==>
         outs[i] == ValueFor(MutParams(params)[i].ty, reg, Mark(OutNames(params)[i], hot))
  }

  lemma {:induction false} MarkerBodyRuns(pr: Program, prim: Prim, params: seq<Param>, hot: Ident)
    returns (outs: seq<Value>)
    requires Accepted(params, pr.reg)
    ensures var fr := BindParams(params, CallVals(params, pr.reg), pr.reg);
            && fr.Some?
            && var end := ExecStmts(pr, prim, 0, Writes(MutParams(params), hot, pr.reg), fr.value);
            && end.Some? && Select(end.value.refs, OutNames(params)) == Some(outs)
    ensures Marked(params, hot, pr.reg, outs)
  {
    var vals, outParams := CallVals(params, pr.reg), MutParams(params);
    CallValsBind(params, pr.reg);
    EntryFrame(params, vals, pr.reg);
    OutNamesDistinct(params, []);
    hide BindParams, CallVals, MutParams, HasType, ValueFor, Writes, OutputsOf;
    var fr := BindParams(params, vals, pr.reg).value;
    WritesRun(pr, prim, 0, outParams, hot, fr);
    var end := ExecStmts(pr, prim, 0, Writes(outParams, hot, pr.reg), fr).value;
    forall x | x in OutNames(params)
      ensures x in end.refs
    {
      OutNamesAre(params, x);
    }
    outs := Select(end.refs, OutNames(params)).value;
    forall i | 0 <= i < |outs|
      ensures outs[i] == ValueFor(outParams[i].ty, pr.reg, Mark(OutNames(params)[i], hot))
    {
      assert outParams[i] in outParams;
    }
  }

  lemma {:induction false} MarkerRuns(f: Ident, params: seq<Param>, hot: Ident, reg: Registry, prim: Prim)
    requires Accepted(params, reg)
    ensures var o := EvalFn(Program(reg, [Marker(f, params, hot, reg)]), prim, 0, f, CallVals(params, reg));
            o.Some? && Marked(params, hot, reg, o.value.outs)
  {
    var pr := Program(reg, [Marker(f, params, hot, reg)]);
    var outs := MarkerBodyRuns(pr, prim, params, hot);
    hide ExecStmts, BindParams, CallVals, Marked, Writes, MutParams;
    assert FindFn(pr.fns, f) == Some(Marker(f, params, hot, reg));
  }

  lemma {:induction false} MarkerCallRuns(params: seq<Param>, hot: Ident, reg: Registry, prim: Prim)
    returns (pr: Program, pr': Program, f: Ident, args: seq<Arg>, fr: Frame)
    requires Accepted(params, reg)
    ensures pr.reg == reg && CallRuns(pr, pr', prim, 1, f, params, args, fr) && Targets(args) == OutNames(params)
    ensures EvalArgs(prim, args, fr).Some?
    ensures var o := EvalFn(pr, prim, 0, f, EvalArgs(prim, args, fr).value);
            o.Some? && Marked(params, hot, reg, o.value.outs)
  {
    f := [];
    pr, pr' := MarkerRewritten(f, params, hot, reg);
    fr, args := Frame(CallerLocals(params, reg), map[], {}), CallArgs(params);
    CallTargets(params);
    CallerHoldsZeros(params, reg);
    CallArgsRun(prim, params, reg, fr);
    MarkerRuns(f, params, hot, reg, prim);
    OutNamesDistinct(params, []);
    hide EvalFn, EvalArgs, GoodProgram, Rewritten, CallVals, CallArgs, CallerLocals, Writes, Bind, OutputsOf, MutParams,
         HoldsZeros, LetBindings, ShapeOf, ValueFor, TargetsAreVars, Targets;
    assert FindFn(pr.fns, f).value.params == params;
    assert ExecStmt(pr, prim, 1, Call(f, args), fr).Some?;
  }

  /** A call of the marker. */
  lemma {:induction false} MarkerCalled(params: seq<Param>, hot: Ident, reg: Registry, prim: Prim)
    returns (pr: Program, pr': Program, f: Ident, args: seq<Arg>, fr: Frame, outs: seq<Value>, ret: seq<Value>)
    requires Accepted(params, reg)
    ensures pr.reg == reg && CallRuns(pr, pr', prim, 1, f, params, args, fr) && RewriteStmt(Call(f, args)).Ok?
    ensures Marked(params, hot, reg, outs) && SameOutputs(params, outs, ret)
    ensures |outs| == |OutNames(params)| && Distinct(OutNames(params))
    ensures ExecStmt(pr, prim, 1, Call(f, args), fr).value.locals == Bind(fr.locals, OutNames(params), outs)
    ensures var end' := ExecStmt(pr', prim, 1, RewriteStmt(Call(f, args)).value, fr);
            |ret| == |outs| ==> end'.Some? && end'.value.locals == Bind(fr.locals, OutNames(params), ret)
  {
    pr, pr', f, args, fr := MarkerCallRuns(params, hot, reg, prim);
    assert RewriteStmt(Call(f, args)).Ok?;
    hide ExecStmt, EvalFn, EvalArgs, Accepted, Bind, SameOutputs, OutNames, Marked, Targets, RewriteStmt;
    outs, ret := RewrittenCall(pr, pr', prim, 1, f, params, args, fr);
  }

  /** In the sorted tuple another output stands in the place of a misplaced one. */
  lemma {:induction false} MarkedDiffer(params: seq<Param>, reg: Registry, i: nat, outs: seq<Value>, ret: seq<Value>)
    requires i < |OutNames(params)| && Marked(params, OutNames(params)[i], reg, outs) && SameOutputs(params, outs, ret)
    requires |Keys(OutputsOf(params, []).value)| == |OutNames(params)|
    requires Keys(OutputsOf(params, []).value)[i] != OutNames(params)[i]
    requires ShapeOf(MutParams(params)[i].ty, reg) != Some(ArrayShape(0))
    ensures |ret| == |outs| && ret[i] != outs[i]
  {
    hide OutputsOf, MutParams, ShapeOf, ValueFor;
    var names := OutNames(params);
    var x := Keys(OutputsOf(params, []).value)[i];
    assert x in Keys(OutputsOf(params, []).value) && x in names;
    var j :| 0 <= j < |names| && names[j] == x;
    assert ret[i] == outs[j] == ValueFor(MutParams(params)[j].ty, reg, 0);
    OnesAreNotZeros(MutParams(params)[i].ty, MutParams(params)[j].ty, reg);
  }

  /** A misplaced output with more than one possible value is bound wrongly by some call. */
  lemma {:induction false} MisplacedCallDiffers(params: seq<Param>, reg: Registry, i: nat)
    requires Accepted(params, reg) && i < |OutNames(params)|
    requires |Keys(OutputsOf(params, []).value)| == |OutNames(params)|
    requires Keys(OutputsOf(params, []).value)[i] != OutNames(params)[i]
    requires ShapeOf(MutParams(params)[i].ty, reg) != Some(ArrayShape(0))
    ensures !CallsAgree(params, reg)
  {
    var names, prim: Prim := OutNames(params), (_, _, _) => 0;
    var pr, pr', f, args, fr, outs, ret := MarkerCalled(params, names[i], reg, prim);
    MarkedDiffer(params, reg, i, outs, ret);
    hide ExecStmt, OutputsOf, MutParams, Bind, SameOutputs, Marked, ShapeOf, Accepted, OutNames, CallRuns;
    BindAt(fr.locals, names, ret, i);
    BindAt(fr.locals, names, outs, i);
    assert !CallAgrees(pr, pr', prim, 1, f, args, fr);
    hide CallAgrees;
    DifferentCall(pr, pr', prim, f, params, args, fr);
  }

  lemma DifferentCall(pr: Program, pr': Program, prim: Prim, f: Ident, params: seq<Param>, args: seq<Arg>, fr: Frame)
    requires CallRuns(pr, pr', prim, 1, f, params, args, fr) && !CallAgrees(pr, pr', prim, 1, f, args, fr)
    ensures !CallsAgree(params, pr.reg)
  {
    hide CallRuns, CallAgrees;
  }

  lemma OnesAreNotZeros(ty: Type, ty': Type, reg: Registry)
    requires ShapeOf(ty, reg) != Some(ArrayShape(0))
    ensures ValueFor(ty, reg, 1) != ValueFor(ty', reg, 0)
  {
    var v, w := ValueFor(ty, reg, 1), ValueFor(ty', reg, 0);
    if v.Arr? && w.Arr? && |v.elems| == |w.elems| {
      assert v.elems[0] == 1 && w.elems[0] == 0;
    }
  }

  /** Tuple alignment: in every program, a rewritten call hands every variable its own output if and
      only if every output of the callee stands in its place among the sorted names or is an array of
      length 0. Without such arrays this means that the names increase along the signature. */
  lemma TupleAlignment(params: seq<Param>, reg: Registry)
    requires Accepted(params, reg)
    ensures CallsAgree(params, reg) <==> Aligned(params, reg)
    ensures Increasing(OutNames(params)) ==> CallsAgree(params, reg)
    ensures (forall p :: p in params && p.ByMutRef? ==> ShapeOf(p.ty, reg) != Some(ArrayShape(0))) ==>
              (CallsAgree(params, reg) <==> Increasing(OutNames(params)))
  {
    hide CallsAgree;
    var sorted, outs := Keys(OutputsOf(params, []).value), MutParams(params);
    OutNamesDistinct(params, []);
    OutputsOfIncreasing(params, []);
    if Increasing(OutNames(params)) {
      IncreasingAligned(params, reg);
    }
    if Aligned(params, reg) {
      AlignedCallsAgree(params, reg);
      if forall p :: p in params && p.ByMutRef? ==> ShapeOf(p.ty, reg) != Some(ArrayShape(0)) {
        forall i | 0 <= i < |outs|
          ensures sorted[i] == outs[i].name
        {
          assert outs[i] in outs;
        }
        assert sorted == OutNames(params);
      }
    } else {
      var i :| 0 <= i < |outs| && sorted[i] != outs[i].name && ShapeOf(outs[i].ty, reg) != Some(ArrayShape(0));
      MisplacedCallDiffers(params, reg, i);
    }
  }
}
