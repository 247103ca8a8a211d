/** A file that keeps its meaning: a function with arrays and an operator, and one that calls it. */
module ConstifySample {
  import opened Common
  import opened ConstifySyntax
  import opened ConstifyTypes
  import opened ConstifySemantics
  import opened ConstifyRewrite
  import opened ConstifyPreservation
  import opened ConstifyFile
  import opened ConstifySwap
  import opened ConstifyAccepts
  import opened ConstifyTotal

  const PAIR: Type := Array(U64, 2)

  /** `out: &mut <ty>, a: &[u64; 2], b: u64`. */
  function Params(out: Ident, ty: Type, a: Ident, b: Ident): seq<Param> {
    [ByMutRef(out, ty), ByValue(a, OtherType), ByValue(b, U64)]
  }

  /** `fn f(out: &mut [u64; 2], ..) { let x = op(a[1], b); out[0] = x; out[1] = a[0]; }` */
  function Inner(f: Ident, out: Ident, a: Ident, b: Ident, x: Ident, op: Ident): Fn {
    Fn(f, false, Params(out, PAIR, a, b), [],
       [Let(x, Op(op, Index(a, 1), Var(b))), Assign(PlaceIndex(out, 0), Var(x)),
        Assign(PlaceIndex(out, 1), Index(a, 0))], [])
  }

  /** `fn h(out: &mut u64, ..) { let mut y = [0; 2]; f(&mut y, a, b); *out = y[0]; }` */
  function Outer(h: Ident, f: Ident, out: Ident, a: Ident, b: Ident, y: Ident): Fn {
    Fn(h, false, Params(out, U64, a, b), [],
       [Let(y, Fill(0, 2)), Call(f, [MutRef(PlaceVar(y)), Plain(Var(a)), Plain(Var(b))]),
        Assign(PlaceDeref(out), Index(y, 0))], [])
  }

  // ----- the signatures -----

  lemma ParamNames(out: Ident, ty: Type, a: Ident, b: Ident)
    requires out != a && out != b && a != b
    ensures var params := Params(out, ty, a, b);
            MutParams(params) == [params[0]] && OutNames(params) == [out] && Distinct(Names(params))
  {
    var params := Params(out, ty, a, b);
    assert params[1..] == [params[1], params[2]] && params[1..][1..] == [params[2]] && params[1..][1..][1..] == [];
    assert MutParams(params[1..][1..][1..]) == [];
    assert MutParams(params[1..][1..]) == [] && MutParams(params[1..]) == [];
    assert MutParams(params) == [params[0]];
  }

  lemma OneOutput(out: Ident, ty: Type, a: Ident, b: Ident)
    requires out != a && out != b && a != b
    ensures DistinctOutputs(Params(out, ty, a, b)) && Aligned(Params(out, ty, a, b), map[])
  {
    var params := Params(out, ty, a, b);
    OutputsOk(params, []);
    ParamNames(out, ty, a, b);
    hide OutputsOf, MutParams;
    IncreasingAligned(params, map[]);
  }

  lemma Entry(out: Ident, ty: Type, a: Ident, b: Ident, v: Value, w: Value, k: Value)
    requires HasType(v, ty, map[])
    ensures BindParams(Params(out, ty, a, b), [PassRef(v), PassValue(w), PassValue(k)], map[])
            == Some(Frame(map[b := k, a := w], map[out := v], {}))
  {
    hide ShapeOf;
    var params, args := Params(out, ty, a, b), [PassRef(v), PassValue(w), PassValue(k)];
    assert params[1..][1..] == [params[2]] && args[1..][1..] == [args[2]];
    assert params[1..][1..][1..] == [] && args[1..][1..][1..] == [];
    assert BindParams(params[1..][1..][1..], args[1..][1..][1..], map[]) == Some(Frame(map[], map[], {}));
    assert BindParams(params[1..][1..], args[1..][1..], map[]) == Some(Frame(map[b := k], map[], {}));
    assert BindParams(params[1..], args[1..], map[]) == Some(Frame(map[b := k][a := w], map[], {}));
  }

  lemma PairShape()
    ensures ShapeOf(PAIR, map[]) == Some(ArrayShape(2)) && ShapeOf(U64, map[]) == Some(ScalarShape)
  {
    DefaultU64();
    assert IsInteger(U64, map[]);
  }

  // ----- the runs -----

  lemma InnerBodyRuns(pr: Program, prim: Prim, f: Ident, out: Ident, a: Ident, b: Ident, x: Ident, op: Ident,
                      s: int, t: int, m: int, n: int, k: int)
    returns (end: Frame)
    requires out != a && out != b && out != x && a != b && a != x && b != x
    ensures ExecStmts(pr, prim, 0, Inner(f, out, a, b, x, op).body,
                      Frame(map[b := Scalar(k), a := Arr([m, n])], map[out := Arr([s, t])], {})) == Some(end)
    ensures end.refs == map[out := Arr([prim(op, n, k), m])]
  {
    var body := Inner(f, out, a, b, x, op).body;
    var fr := Frame(map[b := Scalar(k), a := Arr([m, n])], map[out := Arr([s, t])], {});
    var v := prim(op, n, k);
    var fr1 := fr.(locals := fr.locals[x := Scalar(v)]);
    var fr2 := fr1.(refs := map[out := Arr([v, t])]);
    end := fr2.(refs := map[out := Arr([v, m])]);
    LetRuns(pr, prim, x, body[0].e, fr, v);
    StoreRuns(pr, prim, out, 0, Var(x), fr1, [s, t], v);
    StoreRuns(pr, prim, out, 1, Index(a, 0), fr2, [v, t], m);
    assert [s, t][0 := v] == [v, t] && [v, t][1 := m] == [v, m];
    hide ExecStmt;
    RunThrough(pr, prim, 0, body, [fr, fr1, fr2, end]);
  }

  lemma LetRuns(pr: Program, prim: Prim, x: Ident, e: Expr, fr: Frame, v: int)
    requires EvalExpr(prim, e, fr) == Some(Scalar(v)) && fr.frozen == {}
    ensures ExecStmt(pr, prim, 0, Let(x, e), fr) == Some(fr.(locals := fr.locals[x := Scalar(v)]))
  {
    hide EvalExpr;
    assert fr.frozen - {x} == fr.frozen;
  }

  lemma StoreRuns(pr: Program, prim: Prim, out: Ident, i: nat, e: Expr, fr: Frame, s: seq<int>, v: int)
    requires fr.refs == map[out := Arr(s)] && out !in fr.locals && fr.frozen == {} && i < |s|
    requires EvalExpr(prim, e, fr) == Some(Scalar(v))
    ensures ExecStmt(pr, prim, 0, Assign(PlaceIndex(out, i), e), fr) == Some(fr.(refs := map[out := Arr(s[i := v])]))
  {
    hide EvalExpr;
    assert fr.refs[out := Arr(s[i := v])] == map[out := Arr(s[i := v])];
  }

  /** What the evaluator makes of the inner function, for every interpretation of the operator. */
  lemma InnerRuns(pr: Program, prim: Prim, f: Ident, out: Ident, a: Ident, b: Ident, x: Ident, op: Ident,
                  s: int, t: int, m: int, n: int, k: int)
    requires out != a && out != b && out != x && a != b && a != x && b != x
    requires pr.reg == map[] && FindFn(pr.fns, f) == Some(Inner(f, out, a, b, x, op))
    ensures EvalFn(pr, prim, 0, f, [PassRef(Arr([s, t])), PassValue(Arr([m, n])), PassValue(Scalar(k))])
            == Some(Outcome([Arr([prim(op, n, k), m])], []))
  {
    var fn, args := Inner(f, out, a, b, x, op), [PassRef(Arr([s, t])), PassValue(Arr([m, n])), PassValue(Scalar(k))];
    PairShape();
    hide ShapeOf;
    Entry(out, PAIR, a, b, Arr([s, t]), Arr([m, n]), Scalar(k));
    var end := InnerBodyRuns(pr, prim, f, out, a, b, x, op, s, t, m, n, k);
    RunIs(pr, prim, 0, fn, args, end);
    ParamNames(out, PAIR, a, b);
    hide BindParams, ExecStmts, RunFn, OutNames;
    assert Select(end.refs, [out]).value == [Arr([prim(op, n, k), m])];
    assert Select(end.locals, []).value == [];
  }

  lemma ThreeArgs(prim: Prim, y: Ident, a: Ident, b: Ident, fr: Frame)
    requires y in fr.locals && a in fr.locals && b in fr.locals && fr.frozen == {}
    ensures var args := [MutRef(PlaceVar(y)), Plain(Var(a)), Plain(Var(b))];
            && Targets(args) == [y] && TargetsAreVars(args)
            && EvalArgs(prim, args, fr)
               == Some([PassRef(fr.locals[y]), PassValue(fr.locals[a]), PassValue(fr.locals[b])])
  {
    var args := [MutRef(PlaceVar(y)), Plain(Var(a)), Plain(Var(b))];
    assert args[1..] == [args[1], args[2]] && args[1..][1..] == [args[2]] && args[1..][1..][1..] == [];
    assert EvalArgs(prim, args[1..][1..][1..], fr) == Some([]) && Targets(args[1..][1..][1..]) == [];
    assert EvalArgs(prim, args[1..][1..], fr).value == [PassValue(fr.locals[b])] && Targets(args[1..][1..]) == [];
    assert EvalArgs(prim, args[1..], fr).value == [PassValue(fr.locals[a]), PassValue(fr.locals[b])];
    assert Targets(args[1..]) == [];
    assert EvalArgs(prim, args, fr).value == [PassRef(fr.locals[y]), PassValue(fr.locals[a]), PassValue(fr.locals[b])];
  }

  lemma OuterBodyRuns(pr: Program, prim: Prim, h: Ident, f: Ident, out: Ident, a: Ident, b: Ident, y: Ident,
                      r: int, w: Value, k: Value, v: int, m: int)
    returns (end: Frame)
    requires out != a && out != b && out != y && a != b && a != y && b != y
    requires EvalFn(pr, prim, 0, f, [PassRef(Arr([0, 0])), PassValue(w), PassValue(k)])
             == Some(Outcome([Arr([v, m])], []))
    ensures ExecStmts(pr, prim, 1, Outer(h, f, out, a, b, y).body,
                      Frame(map[b := k, a := w], map[out := Scalar(r)], {})) == Some(end)
    ensures end.refs == map[out := Scalar(v)]
  {
    hide EvalFn;
    var body := Outer(h, f, out, a, b, y).body;
    var fr := Frame(map[b := k, a := w], map[out := Scalar(r)], {});
    var fr1 := fr.(locals := fr.locals[y := Arr([0, 0])]);
    var fr2 := fr1.(locals := fr1.locals[y := Arr([v, m])]);
    end := fr2.(refs := map[out := Scalar(v)]);
    assert fr.frozen - {y} == fr.frozen && Repeat(0, 2) == [0, 0];
    assert ExecStmt(pr, prim, 1, body[0], fr) == Some(fr1);
    ThreeArgs(prim, y, a, b, fr1);
    assert [y][1..] == [] && [Arr([v, m])][1..] == [];
    assert Bind(fr1.locals, [y], [Arr([v, m])]) == Bind(fr2.locals, [y][1..], [Arr([v, m])][1..]) == fr2.locals;
    assert ExecStmt(pr, prim, 1, body[1], fr1) == Some(fr2);
    assert fr2.refs[out := Scalar(v)] == end.refs;
    assert ExecStmt(pr, prim, 1, body[2], fr2) == Some(end);
    RunThrough(pr, prim, 1, body, [fr, fr1, fr2, end]);
  }

  lemma OuterRuns(pr: Program, prim: Prim, h: Ident, f: Ident, out: Ident, a: Ident, b: Ident, x: Ident, y: Ident,
                  op: Ident, r: int, m: int, n: int, k: int)
    requires out != a && out != b && out != x && a != b && a != x && b != x && y !in {out, a, b}
    requires pr.reg == map[] && FindFn(pr.fns, f) == Some(Inner(f, out, a, b, x, op))
    requires FindFn(pr.fns, h) == Some(Outer(h, f, out, a, b, y))
    ensures EvalFn(pr, prim, 1, h, [PassRef(Scalar(r)), PassValue(Arr([m, n])), PassValue(Scalar(k))])
            == Some(Outcome([Scalar(prim(op, n, k))], []))
  {
    var fn, args := Outer(h, f, out, a, b, y), [PassRef(Scalar(r)), PassValue(Arr([m, n])), PassValue(Scalar(k))];
    PairShape();
    hide ShapeOf;
    InnerRuns(pr, prim, f, out, a, b, x, op, 0, 0, m, n, k);
    Entry(out, U64, a, b, Scalar(r), Arr([m, n]), Scalar(k));
    var end := OuterBodyRuns(pr, prim, h, f, out, a, b, y, r, Arr([m, n]), Scalar(k), prim(op, n, k), m);
    RunIs(pr, prim, 1, fn, args, end);
    ParamNames(out, U64, a, b);
    hide BindParams, ExecStmts, RunFn, OutNames;
    assert Select(end.refs, [out]).value == [Scalar(prim(op, n, k))];
    assert Select(end.locals, []).value == [];
  }

  // ----- the conditions of meaning preservation -----

  lemma CarefulThree(s0: Stmt, s1: Stmt, s2: Stmt, outs: set<Ident>, u: Places, pr: Program)
    requires GoodStmt(s0, outs, u, {}, pr)
    requires GoodStmt(s1, outs, After(s0, u), FrozenAfter(s0, {}), pr)
    requires GoodStmt(s2, outs, After(s1, After(s0, u)), FrozenAfter(s1, FrozenAfter(s0, {})), pr)
    ensures Careful([s0, s1, s2], outs, u, {}, pr)
    ensures Unwritten([s0, s1, s2], u) == After(s2, After(s1, After(s0, u)))
  {
    hide GoodStmt, After, FrozenAfter;
    var body := [s0, s1, s2];
    assert body[1..] == [s1, s2] && body[1..][1..] == [s2] && body[1..][1..][1..] == [];
    var u1 := After(s0, u);
    var u2 := After(s1, u1);
    var z1 := FrozenAfter(s0, {});
    var z2 := FrozenAfter(s1, z1);
    assert Careful([], outs, After(s2, u2), FrozenAfter(s2, z2), pr) && Unwritten([], After(s2, u2)) == After(s2, u2);
    assert Careful([s2], outs, u2, z2, pr) && Unwritten([s2], u2) == After(s2, u2);
    assert Careful([s1, s2], outs, u1, z1, pr) && Unwritten([s1, s2], u1) == After(s2, u2);
  }

  lemma InnerGood(pr: Program, f: Ident, out: Ident, a: Ident, b: Ident, x: Ident, op: Ident)
    requires out != a && out != b && out != x && a != b && a != x && b != x && pr.reg == map[]
    ensures GoodFn(Inner(f, out, a, b, x, op), pr)
  {
    var fn := Inner(f, out, a, b, x, op);
    ParamNames(out, PAIR, a, b);
    PairPlaces(out);
    hide EntryPlaces, OutNames, MutParams;
    OneElement(out);
    var u: Places := {(out, 0), (out, 1)};
    assert fn.body == [fn.body[0], fn.body[1], fn.body[2]];
    assert ReadsWritten(Index(a, 1), u) && ReadsWritten(Var(b), u);
    var u' := After(fn.body[0], u);
    assert u' == u;
    assert After(fn.body[1], u) == {(out, 1)} && After(fn.body[2], {(out, 1)}) == {};
    CarefulThree(fn.body[0], fn.body[1], fn.body[2], {out}, u, pr);
  }

  lemma PairPlaces(out: Ident)
    ensures EntryPlaces([ByMutRef(out, PAIR)], map[]) == {(out, 0), (out, 1)}
    ensures EntryPlaces([ByMutRef(out, U64)], map[]) == {(out, 0)}
  {
    PairShape();
    hide ShapeOf;
    var p, q := [ByMutRef(out, PAIR)], [ByMutRef(out, U64)];
    assert p[1..] == [] && q[1..] == [] && EntryPlaces(p[1..], map[]) == {};
    assert PlacesOf(out, Some(ArrayShape(2))) == {(out, 0), (out, 1)};
  }

  lemma OneElement(x: Ident)
    ensures Elements([x]) == {x}
  {
    assert [x][0] == x;
  }

  lemma OuterGood(pr: Program, h: Ident, f: Ident, out: Ident, a: Ident, b: Ident, x: Ident, y: Ident, op: Ident)
    requires out != a && out != b && out != x && a != b && a != x && b != x && y !in {out, a, b}
    requires pr.reg == map[] && FindFn(pr.fns, f) == Some(Inner(f, out, a, b, x, op))
    ensures GoodFn(Outer(h, f, out, a, b, y), pr)
  {
    var fn := Outer(h, f, out, a, b, y);
    ParamNames(out, U64, a, b);
    PairPlaces(out);
    OneElement(out);
    var u: Places := {(out, 0)};
    var s0, s1, s2 := fn.body[0], fn.body[1], fn.body[2];
    assert After(s0, u) == u && FrozenAfter(s0, {}) == {} && After(s2, u) == {};
    OuterCallGood(pr, f, out, a, b, x, y, op);
    hide EntryPlaces, OutNames, MutParams, FindFn, Elements, Targets;
    assert GoodStmt(s0, {out}, u, {}, pr) && GoodStmt(s2, {out}, u, {y}, pr);
    hide GoodStmt, After, FrozenAfter;
    assert fn.body == [s0, s1, s2];
    CarefulThree(s0, s1, s2, {out}, u, pr);
  }

  lemma OuterCallGood(pr: Program, f: Ident, out: Ident, a: Ident, b: Ident, x: Ident, y: Ident, op: Ident)
    requires out != a && out != b && out != x && a != b && a != x && b != x && y !in {out, a, b}
    requires pr.reg == map[] && FindFn(pr.fns, f) == Some(Inner(f, out, a, b, x, op))
    ensures var call := Call(f, [MutRef(PlaceVar(y)), Plain(Var(a)), Plain(Var(b))]);
            && GoodStmt(call, {out}, {(out, 0)}, {}, pr)
            && After(call, {(out, 0)}) == {(out, 0)} && FrozenAfter(call, {}) == {y}
  {
    OneOutput(out, PAIR, a, b);
    OneElement(y);
    ThreeArgs((_, _, _) => 0, y, a, b, Frame(map[y := Scalar(0), a := Scalar(0), b := Scalar(0)], map[], {}));
    hide Aligned, Targets, FindFn, Elements;
    var u: Places := {(out, 0)};
    assert Whole(a, u) && Whole(b, u);
  }

  // ----- the file -----

  lemma FileIsAccepted(h: Ident, f: Ident, out: Ident, a: Ident, b: Ident, x: Ident, y: Ident, op: Ident)
    requires out != a && out != b && a != b
    ensures FileAccepted([FnItem(Inner(f, out, a, b, x, op)), FnItem(Outer(h, f, out, a, b, y))])
  {
    var g, u := Inner(f, out, a, b, x, op), Outer(h, f, out, a, b, y);
    var items := [FnItem(g), FnItem(u)];
    assert items[..0] == [] && items[..1] == [FnItem(g)] && items[..1][1..] == [];
    assert RegistryOf(items[..0], map[]) == map[];
    assert RegistryOf(items[..1], map[]) == RegistryOf(items[..1][1..], map[]) == map[];
    FnsAccepted(h, f, out, a, b, x, y, op);
    hide FnAccepted, RegistryOf;
  }

  lemma FnsAccepted(h: Ident, f: Ident, out: Ident, a: Ident, b: Ident, x: Ident, y: Ident, op: Ident)
    requires out != a && out != b && a != b
    ensures FnAccepted(Inner(f, out, a, b, x, op), map[]) && FnAccepted(Outer(h, f, out, a, b, y), map[])
  {
    var g, u := Inner(f, out, a, b, x, op), Outer(h, f, out, a, b, y);
    OneOutput(out, PAIR, a, b);
    OneOutput(out, U64, a, b);
    hide DistinctOutputs, Aligned;
    assert g.params[0] in g.params && u.params[0] in u.params;
    assert Follow(PAIR, map[], 0) == PAIR && EndsIn(PAIR, map[], Array(U64, 2));
    assert Follow(U64, map[], 0) == U64 && EndsIn(U64, map[], Path([117, 54, 52]));
    hide EndsIn;
  }

  /** The tool rewrites the file, and the rewritten outer function returns for all inputs, whatever the
      operator means, what the original leaves in its output. */
  lemma SampleKept(prim: Prim, h: Ident, f: Ident, out: Ident, a: Ident, b: Ident, x: Ident, y: Ident, op: Ident,
                   r: int, m: int, n: int, k: int)
    requires out != a && out != b && out != x && a != b && a != x && b != x && y !in {out, a, b} && f != h
    ensures var items := [FnItem(Inner(f, out, a, b, x, op)), FnItem(Outer(h, f, out, a, b, y))];
            && RewriteItems(items, map[]).Ok? && GoodProgram(ProgramOf(items))
            && Means(ProgramOf(items), prim, h, [PassRef(Scalar(r)), PassValue(Arr([m, n])), PassValue(Scalar(k))],
                     Outcome([Scalar(prim(op, n, k))], []))
            && Means(ProgramOf(RewriteItems(items, map[]).value), prim, h,
                     [PassValue(Arr([m, n])), PassValue(Scalar(k))], Outcome([], [Scalar(prim(op, n, k))]))
  {
    var g, u := Inner(f, out, a, b, x, op), Outer(h, f, out, a, b, y);
    var items, pr := [FnItem(g), FnItem(u)], Program(map[], [g, u]);
    FileIsAccepted(h, f, out, a, b, x, y, op);
    RewriteSucceedsIff(items);
    TwoFunctions(g, u);
    assert pr.fns[1..] == [u];
    InnerGood(pr, f, out, a, b, x, op);
    OuterGood(pr, h, f, out, a, b, x, y, op);
    OuterRuns(pr, prim, h, f, out, a, b, x, y, op, r, m, n, k);
    OneOutput(out, U64, a, b);
    var args := [PassRef(Scalar(r)), PassValue(Arr([m, n])), PassValue(Scalar(k))];
    var o := Outcome([Scalar(prim(op, n, k))], []);
    ThreeValues(Scalar(r), Arr([m, n]), Scalar(k));
    hide RewriteItems, FileAccepted, EvalFn, GoodFn, Aligned, SameOutputs, ProgramOf, ValuesOf, RegistryOf;
    assert GoodProgram(pr);
    assert Means(pr, prim, h, args, o);
    var o' := MeaningPreserved(items, RewriteItems(items, map[]).value, prim, h, args, o);
  }

  // ----- the types -----

  function SigOf(sh: Shape): Sig {
    [RefTo(sh), ValueOf(ArrayShape(2)), ValueOf(ScalarShape)]
  }

  lemma EntryTypes(out: Ident, ty: Type, a: Ident, b: Ident, sh: Shape)
    requires ShapeOf(ty, map[]) == Some(sh)
    ensures ParamsFit(Params(out, ty, a, b), SigOf(sh), map[])
    ensures EntryEnv(Params(out, ty, a, b), SigOf(sh))
            == Env(map[b := ScalarShape, a := ArrayShape(2)], map[out := sh])
  {
    hide ShapeOf;
    var params, sig := Params(out, ty, a, b), SigOf(sh);
    assert params[1..][1..] == [params[2]] && sig[1..][1..] == [sig[2]];
    assert params[1..][1..][1..] == [] && sig[1..][1..][1..] == [];
    assert EntryEnv(params[1..][1..][1..], sig[1..][1..][1..]) == Env(map[], map[]);
    assert EntryEnv(params[1..][1..], sig[1..][1..]) == Env(map[b := ScalarShape], map[]);
    assert EntryEnv(params[1..], sig[1..]) == Env(map[b := ScalarShape][a := ArrayShape(2)], map[]);
  }

  lemma ThreeTyped(s0: Stmt, s1: Stmt, s2: Stmt, env: Env, env1: Env, sigs: seq<(Ident, Sig)>)
    requires StmtEnv(s0, env, sigs) == Some(env1)
    requires StmtEnv(s1, env1, sigs) == Some(env1) && StmtEnv(s2, env1, sigs) == Some(env1)
    ensures BodyEnv([s0, s1, s2], env, sigs) == Some(env1)
  {
    hide StmtEnv;
    var body := [s0, s1, s2];
    assert body[1..] == [s1, s2] && body[1..][1..] == [s2] && body[1..][1..][1..] == [];
    assert BodyEnv([], env1, sigs) == Some(env1);
    assert BodyEnv([s2], env1, sigs) == Some(env1) && BodyEnv([s1, s2], env1, sigs) == Some(env1);
  }

  lemma ThreeShapes(y: Ident, a: Ident, b: Ident, env: Env)
    requires y in env.locals && a in env.locals && b in env.locals
    ensures ArgShapes([MutRef(PlaceVar(y)), Plain(Var(a)), Plain(Var(b))], env)
            == Some([RefTo(env.locals[y]), ValueOf(env.locals[a]), ValueOf(env.locals[b])])
  {
    var args := [MutRef(PlaceVar(y)), Plain(Var(a)), Plain(Var(b))];
    assert args[1..] == [args[1], args[2]] && args[1..][1..] == [args[2]] && args[1..][1..][1..] == [];
    assert ArgShapes(args[1..][1..][1..], env) == Some([]);
    assert ArgShapes(args[1..][1..], env).value == [ValueOf(env.locals[b])];
    assert ArgShapes(args[1..], env).value == [ValueOf(env.locals[a]), ValueOf(env.locals[b])];
    assert ArgShapes(args, env).value == [RefTo(env.locals[y]), ValueOf(env.locals[a]), ValueOf(env.locals[b])];
  }

  lemma InnerTyped(f: Ident, out: Ident, a: Ident, b: Ident, x: Ident, op: Ident, sigs: seq<(Ident, Sig)>)
    requires out != a && out != b && out != x && a != b && a != x && b != x
    ensures FnTyped(Inner(f, out, a, b, x, op), SigOf(ArrayShape(2)), sigs, map[])
  {
    var fn := Inner(f, out, a, b, x, op);
    ParamNames(out, PAIR, a, b);
    PairShape();
    EntryTypes(out, PAIR, a, b, ArrayShape(2));
    hide ShapeOf, EntryEnv, ParamsFit, FindSig;
    var env := Env(map[b := ScalarShape, a := ArrayShape(2)], map[out := ArrayShape(2)]);
    assert ExprShape(Index(a, 1), env) == Some(ScalarShape) && ExprShape(Var(b), env) == Some(ScalarShape);
    var s0, s1, s2, env1 := fn.body[0], fn.body[1], fn.body[2], env.(locals := env.locals[x := ScalarShape]);
    assert StmtEnv(s0, env, sigs) == Some(env1);
    assert StmtEnv(s1, env1, sigs) == Some(env1) && StmtEnv(s2, env1, sigs) == Some(env1);
    hide StmtEnv;
    assert fn.body == [s0, s1, s2];
    ThreeTyped(s0, s1, s2, env, env1, sigs);
  }

  lemma OuterTyped(h: Ident, f: Ident, out: Ident, a: Ident, b: Ident, y: Ident)
    requires out != a && out != b && a != b && y !in {out, a, b}
    ensures FnTyped(Outer(h, f, out, a, b, y), SigOf(ScalarShape), [(f, SigOf(ArrayShape(2)))], map[])
  {
    var fn := Outer(h, f, out, a, b, y);
    ParamNames(out, U64, a, b);
    PairShape();
    EntryTypes(out, U64, a, b, ScalarShape);
    hide ShapeOf, EntryEnv, ParamsFit;
    var env := Env(map[b := ScalarShape, a := ArrayShape(2)], map[out := ScalarShape]);
    var env1 := env.(locals := env.locals[y := ArrayShape(2)]);
    ThreeShapes(y, a, b, env1);
    ThreeArgs((_, _, _) => 0, y, a, b, Frame(map[y := Scalar(0), a := Scalar(0), b := Scalar(0)], map[], {}));
    hide Targets, ArgShapes;
    var s0, s1, s2, sigs := fn.body[0], fn.body[1], fn.body[2], [(f, SigOf(ArrayShape(2)))];
    assert StmtEnv(s0, env, sigs) == Some(env1);
    assert StmtEnv(s1, env1, sigs) == Some(env1) && StmtEnv(s2, env1, sigs) == Some(env1);
    hide StmtEnv;
    assert fn.body == [s0, s1, s2];
    ThreeTyped(s0, s1, s2, env, env1, sigs);
  }

  /** The file is well-typed, and its functions call only earlier ones. */
  lemma SampleTyped(h: Ident, f: Ident, out: Ident, a: Ident, b: Ident, x: Ident, y: Ident, op: Ident)
    requires out != a && out != b && out != x && a != b && a != x && b != x && y !in {out, a, b} && f != h
    ensures WellTyped([Inner(f, out, a, b, x, op), Outer(h, f, out, a, b, y)],
                      [SigOf(ArrayShape(2)), SigOf(ScalarShape)], map[])
  {
    var fns := [Inner(f, out, a, b, x, op), Outer(h, f, out, a, b, y)];
    var sigs := [SigOf(ArrayShape(2)), SigOf(ScalarShape)];
    InnerTyped(f, out, a, b, x, op, Earlier(fns, sigs, 0));
    OuterTyped(h, f, out, a, b, y);
    assert Earlier(fns, sigs, 1) == [(f, SigOf(ArrayShape(2)))];
    hide FnTyped;
  }

  lemma ThreeValues(r: Value, w: Value, k: Value)
    ensures ByValues(ValuesOf([PassRef(r), PassValue(w), PassValue(k)])) == [PassValue(w), PassValue(k)]
  {
    var args := [PassRef(r), PassValue(w), PassValue(k)];
    assert args[1..] == [args[1], args[2]] && args[1..][1..] == [args[2]] && args[1..][1..][1..] == [];
    assert ValuesOf(args[1..][1..][1..]) == [];
    assert ValuesOf(args[1..][1..]) == [k] && ValuesOf(args[1..]) == [w, k];
    assert ValuesOf(args) == [w, k];
  }
}
