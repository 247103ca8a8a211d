/** A file whose meaning changes: `g` names its outputs out of order, and `h` calls it. */
module ConstifySwap {
  import opened Common
  import opened OrderedMap
  import opened ConstifySyntax
  import opened ConstifyTypes
  import opened ConstifySemantics
  import opened ConstifyRewrite
  import opened ConstifyFile

  const U64: Type := Path([117, 54, 52])

  /** `fn g(a: &mut u64, b: &mut u64) { *a = 1; *b = 2; }` */
  function Callee(g: Ident, a: Ident, b: Ident): Fn {
    Fn(g, false, [ByMutRef(a, U64), ByMutRef(b, U64)], [],
       [Assign(PlaceDeref(a), Lit(1)), Assign(PlaceDeref(b), Lit(2))], [])
  }

  /** `fn h(out: &mut u64) { let mut x = 0; let mut y = 0; g(&mut x, &mut y); *out = x; }` */
  function Caller(h: Ident, g: Ident, out: Ident, x: Ident, y: Ident): Fn {
    Fn(h, false, [ByMutRef(out, U64)], [],
       [Let(x, Lit(0)), Let(y, Lit(0)), Call(g, [MutRef(PlaceVar(x)), MutRef(PlaceVar(y))]),
        Assign(PlaceDeref(out), Var(x))], [])
  }

  function NewCallee(g: Ident, a: Ident, b: Ident): Fn {
    Fn(g, true, [], [U64, U64],
       [Let(b, Lit(0)), Let(a, Lit(0)), Assign(PlaceVar(a), Lit(1)), Assign(PlaceVar(b), Lit(2))], [b, a])
  }

  function NewCaller(h: Ident, g: Ident, out: Ident, x: Ident, y: Ident): Fn {
    Fn(h, true, [], [U64],
       [Let(out, Lit(0)), Let(x, Lit(0)), Let(y, Lit(0)), LetTuple([x, y], g, []), Assign(PlaceVar(out), Var(x))],
       [out])
  }

  // ----- the rewrite -----

  lemma DefaultU64()
    ensures DefaultFor(U64, map[], {}) == Ok(Lit(0)) && ShapeOf(U64, map[]) == Some(ScalarShape)
  {
    assert [117, 54, 52][1..] == [54, 52];
  }

  lemma RewriteTwo(s: Stmt, t: Stmt, s': Stmt, t': Stmt)
    requires RewriteStmt(s) == Ok(s') && RewriteStmt(t) == Ok(t')
    ensures RewriteStmts([s, t]) == Ok([s', t'])
  {
    assert [s, t][1..] == [t] && [t][1..] == [];
    assert RewriteStmts([t][1..]) == Ok([]);
    assert RewriteStmts([t]).value == [t'];
    assert RewriteStmts([s, t]).value == [s', t'];
  }

  lemma CalleeOutputs(a: Ident, b: Ident)
    requires Less(b, a)
    ensures OutputsOf([ByMutRef(a, U64), ByMutRef(b, U64)], []) == Ok([(b, U64), (a, U64)])
  {
    var params, q := [ByMutRef(a, U64), ByMutRef(b, U64)], ByMutRef(b, U64);
    var one: seq<(Key, Type)>, two: seq<(Key, Type)> := [(a, U64)], [(b, U64), (a, U64)];
    LessIrreflexive(a);
    hide Less;
    assert params[1..] == [q] && [q][1..] == [];
    assert Get(one, b).None? by {
      assert one[1..] == [];
    }
    assert Insert([], a, U64) == one && Insert(one, b, U64) == two;
    assert OutputsOf([q], one) == OutputsOf([q][1..], two) == Ok(two);
  }

  lemma TwoLets(a: Ident, b: Ident)
    ensures LetBindings([(b, U64), (a, U64)], map[]) == Ok([Let(b, Lit(0)), Let(a, Lit(0))])
  {
    var one: seq<(Key, Type)>, two: seq<(Key, Type)> := [(a, U64)], [(b, U64), (a, U64)];
    DefaultU64();
    hide DefaultFor;
    assert two[1..] == one && one[1..] == [];
    assert LetBindings(one[1..], map[]) == Ok([]);
    assert LetBindings(one, map[]).value == [Let(a, Lit(0))];
    assert LetBindings(two, map[]).value == [Let(b, Lit(0)), Let(a, Lit(0))];
  }

  lemma CalleeRewritten(g: Ident, a: Ident, b: Ident)
    requires Less(b, a)
    ensures RewriteFn(Callee(g, a, b), map[]) == Ok(NewCallee(g, a, b))
  {
    var fn := Callee(g, a, b);
    CalleeOutputs(a, b);
    TwoLets(a, b);
    RewriteTwo(fn.body[0], fn.body[1], Assign(PlaceVar(a), Lit(1)), Assign(PlaceVar(b), Lit(2)));
    assert fn.params[1..] == [fn.params[1]] && Inputs([fn.params[1]]) == [] && Inputs(fn.params) == [];
    hide Less, OutputsOf, LetBindings, RewriteStmts, Inputs;
    var two: seq<(Key, Type)> := [(b, U64), (a, U64)];
    assert Keys(two) == [b, a] && ReturnTypes(two) == [U64, U64];
    assert RewriteFn(fn, map[]).value.body == NewCallee(g, a, b).body;
  }

  lemma CallerRewritten(h: Ident, g: Ident, out: Ident, x: Ident, y: Ident)
    ensures RewriteFn(Caller(h, g, out, x, y), map[]) == Ok(NewCaller(h, g, out, x, y))
  {
    var fn := Caller(h, g, out, x, y);
    var one: seq<(Key, Type)> := [(out, U64)];
    assert fn.params[1..] == [];
    assert Insert([], out, U64) == one;
    assert OutputsOf(fn.params, []) == Ok(one);
    DefaultU64();
    assert one[1..] == [];
    assert LetBindings(one[1..], map[]) == Ok([]);
    assert LetBindings(one, map[]).value == [Let(out, Lit(0))];
    var call := fn.body[2];
    CallSplit(x, y);
    RewriteTwo(call, fn.body[3], LetTuple([x, y], g, []), Assign(PlaceVar(out), Var(x)));
    assert fn.body[1..][1..] == [call, fn.body[3]];
    assert RewriteStmts(fn.body[1..]).Ok?;
    assert RewriteStmts(fn.body).value == NewCaller(h, g, out, x, y).body[1..];
    assert Inputs(fn.params) == [];
    assert Keys(one) == [out] && ReturnTypes(one) == [U64];
    assert RewriteFn(fn, map[]).value.body == NewCaller(h, g, out, x, y).body;
  }

  lemma CallSplit(x: Ident, y: Ident)
    ensures var args := [MutRef(PlaceVar(x)), MutRef(PlaceVar(y))];
            Targets(args) == [x, y] && PlainArgs(args) == [] && TargetsAreVars(args)
  {
    var args := [MutRef(PlaceVar(x)), MutRef(PlaceVar(y))];
    assert args[1..] == [MutRef(PlaceVar(y))] && args[1..][1..] == [];
    assert Targets(args[1..]) == [y] && PlainArgs(args[1..]) == [];
    assert Targets(args) == [x] + [y];
  }

  // ----- the runs -----

  /** A body runs through a sequence of frames. */
  lemma {:induction false} RunThrough(pr: Program, prim: Prim, depth: nat, body: seq<Stmt>, frames: seq<Frame>)
    requires |frames| == |body| + 1
    requires forall i :: 0 <= i < |body| ==> ExecStmt(pr, prim, depth, body[i], frames[i]) == Some(frames[i + 1])
    ensures ExecStmts(pr, prim, depth, body, frames[0]) == Some(frames[|body|])
    decreases |body|
  {
    hide ExecStmt;
    if body != [] {
      assert ExecStmt(pr, prim, depth, body[0], frames[0]) == Some(frames[1]);
      forall i | 0 <= i < |body[1..]|
        ensures ExecStmt(pr, prim, depth, body[1..][i], frames[1..][i]) == Some(frames[1..][i + 1])
      {
        assert ExecStmt(pr, prim, depth, body[i + 1], frames[i + 1]) == Some(frames[i + 1 + 1]);
      }
      RunThrough(pr, prim, depth, body[1..], frames[1..]);
    }
  }

  lemma CalleeRuns(pr: Program, prim: Prim, depth: nat, g: Ident, a: Ident, b: Ident)
    requires a != b && pr.reg == map[] && FindFn(pr.fns, g) == Some(Callee(g, a, b))
    ensures EvalFn(pr, prim, depth, g, [PassRef(Scalar(0)), PassRef(Scalar(0))])
            == Some(Outcome([Scalar(1), Scalar(2)], []))
  {
    var fn, args := Callee(g, a, b), [PassRef(Scalar(0)), PassRef(Scalar(0))];
    CalleeEntry(a, b);
    CalleeBodyRuns(pr, prim, depth, g, a, b);
    hide BindParams, ExecStmts;
    var fr2 := Frame(map[], map[b := Scalar(2), a := Scalar(1)], {});
    TwoNames(a, b);
    hide OutNames;
    assert Select(fr2.refs, [a, b]).value == [Scalar(1), Scalar(2)];
    assert Select(fr2.locals, []).value == [];
  }

  lemma CalleeBodyRuns(pr: Program, prim: Prim, depth: nat, g: Ident, a: Ident, b: Ident)
    requires a != b
    ensures ExecStmts(pr, prim, depth, Callee(g, a, b).body, Frame(map[], map[b := Scalar(0), a := Scalar(0)], {}))
            == Some(Frame(map[], map[b := Scalar(2), a := Scalar(1)], {}))
  {
    var fr := Frame(map[], map[b := Scalar(0), a := Scalar(0)], {});
    var fr1 := Frame(map[], map[b := Scalar(0), a := Scalar(1)], {});
    var fr2 := Frame(map[], map[b := Scalar(2), a := Scalar(1)], {});
    assert fr.refs[a := Scalar(1)] == fr1.refs && fr1.refs[b := Scalar(2)] == fr2.refs;
    RunThrough(pr, prim, depth, Callee(g, a, b).body, [fr, fr1, fr2]);
  }

  lemma TwoNames(a: Ident, b: Ident)
    ensures OutNames([ByMutRef(a, U64), ByMutRef(b, U64)]) == [a, b]
  {
    var params := [ByMutRef(a, U64), ByMutRef(b, U64)];
    assert params[1..] == [ByMutRef(b, U64)];
    FirstOutName(params);
    OneName(b);
  }

  lemma OneName(b: Ident)
    ensures OutNames([ByMutRef(b, U64)]) == [b]
  {
    var params := [ByMutRef(b, U64)];
    assert params[1..] == [];
    FirstOutName(params);
    assert OutNames(params[1..]) == [];
  }

  lemma CalleeEntry(a: Ident, b: Ident)
    requires a != b
    ensures BindParams([ByMutRef(a, U64), ByMutRef(b, U64)], [PassRef(Scalar(0)), PassRef(Scalar(0))], map[])
            == Some(Frame(map[], map[b := Scalar(0), a := Scalar(0)], {}))
  {
    var params, args := [ByMutRef(a, U64), ByMutRef(b, U64)], [PassRef(Scalar(0)), PassRef(Scalar(0))];
    OneEntry(b);
    DefaultU64();
    hide ShapeOf;
    assert params[1..] == [ByMutRef(b, U64)] && args[1..] == [PassRef(Scalar(0))];
  }

  lemma OneEntry(b: Ident)
    ensures BindParams([ByMutRef(b, U64)], [PassRef(Scalar(0))], map[]) == Some(Frame(map[], map[b := Scalar(0)], {}))
  {
    var params, args := [ByMutRef(b, U64)], [PassRef(Scalar(0))];
    DefaultU64();
    hide ShapeOf;
    assert params[1..] == [] && args[1..] == [];
    assert BindParams(params[1..], args[1..], map[]) == Some(Frame(map[], map[], {}));
  }

  lemma NewCalleeRuns(pr: Program, prim: Prim, depth: nat, g: Ident, a: Ident, b: Ident)
    requires a != b && FindFn(pr.fns, g) == Some(NewCallee(g, a, b))
    ensures EvalFn(pr, prim, depth, g, []) == Some(Outcome([], [Scalar(2), Scalar(1)]))
  {
    var fn := NewCallee(g, a, b);
    var fr := Frame(map[], map[], {});
    var fr1 := Frame(map[b := Scalar(0)], map[], {});
    var fr2 := Frame(map[b := Scalar(0), a := Scalar(0)], map[], {});
    var fr3 := Frame(map[b := Scalar(0), a := Scalar(1)], map[], {});
    var fr4 := Frame(map[b := Scalar(2), a := Scalar(1)], map[], {});
    assert fr2.locals[a := Scalar(1)] == fr3.locals && fr3.locals[b := Scalar(2)] == fr4.locals;
    assert fr.frozen - {b} == {} && fr1.frozen - {a} == {};
    RunThrough(pr, prim, depth, fn.body, [fr, fr1, fr2, fr3, fr4]);
    assert Select(fr4.locals, [b, a]).value == [Scalar(2), Scalar(1)];
    assert MutParams(fn.params) == [];
    assert Select(fr4.refs, OutNames(fn.params)).value == [];
  }

  lemma CallerBodyRuns(pr: Program, prim: Prim, h: Ident, g: Ident, out: Ident, x: Ident, y: Ident)
    requires x != y && out != x && out != y
    requires EvalFn(pr, prim, 0, g, [PassRef(Scalar(0)), PassRef(Scalar(0))])
             == Some(Outcome([Scalar(1), Scalar(2)], []))
    ensures ExecStmts(pr, prim, 1, Caller(h, g, out, x, y).body, Frame(map[], map[out := Scalar(0)], {}))
            == Some(Frame(map[x := Scalar(1), y := Scalar(2)], map[out := Scalar(1)], {}))
  {
    hide EvalFn;
    var body := Caller(h, g, out, x, y).body;
    var refs: map<Ident, Value> := map[out := Scalar(0)];
    var fr, fr1 := Frame(map[], refs, {}), Frame(map[x := Scalar(0)], refs, {});
    var fr2 := Frame(map[x := Scalar(0), y := Scalar(0)], refs, {});
    var fr3 := Frame(map[x := Scalar(1), y := Scalar(2)], refs, {});
    assert fr.frozen - {x} == {} && fr1.frozen - {y} == {};
    CallStep(pr, prim, x, y, g, fr2, Scalar(1), Scalar(2));
    assert fr2.locals[x := Scalar(1)][y := Scalar(2)] == fr3.locals;
    var fr4 := fr3.(refs := map[out := Scalar(1)]);
    assert refs[out := Scalar(1)] == fr4.refs;
    RunThrough(pr, prim, 1, body, [fr, fr1, fr2, fr3, fr4]);
  }

  lemma CallerRuns(pr: Program, prim: Prim, h: Ident, g: Ident, out: Ident, x: Ident, y: Ident, a: Ident, b: Ident)
    requires x != y && out != x && out != y && a != b && pr.reg == map[]
    requires FindFn(pr.fns, h) == Some(Caller(h, g, out, x, y)) && FindFn(pr.fns, g) == Some(Callee(g, a, b))
    ensures EvalFn(pr, prim, 1, h, [PassRef(Scalar(0))]) == Some(Outcome([Scalar(1)], []))
  {
    CalleeRuns(pr, prim, 0, g, a, b);
    CallerBodyRuns(pr, prim, h, g, out, x, y);
    OneEntry(out);
    OneName(out);
    hide BindParams, ExecStmts, OutNames;
    var end := Frame(map[x := Scalar(1), y := Scalar(2)], map[out := Scalar(1)], {});
    assert Select(end.refs, [out]).value == [Scalar(1)];
    assert Select(end.locals, []).value == [];
  }

  lemma CallStep(pr: Program, prim: Prim, x: Ident, y: Ident, g: Ident, fr: Frame, v: Value, w: Value)
    requires x != y && x in fr.locals && y in fr.locals && fr.frozen == {}
    requires EvalFn(pr, prim, 0, g, [PassRef(fr.locals[x]), PassRef(fr.locals[y])]) == Some(Outcome([v, w], []))
    ensures ExecStmt(pr, prim, 1, Call(g, [MutRef(PlaceVar(x)), MutRef(PlaceVar(y))]), fr)
            == Some(fr.(locals := fr.locals[x := v][y := w]))
  {
    hide EvalFn, EvalArgs, Bind, Targets, PlainArgs;
    CallSplit(x, y);
    ArgsOfTwo(prim, x, y, fr);
    BindTwo(fr.locals, x, y, v, w);
  }

  lemma TupleStep(pr: Program, prim: Prim, x: Ident, y: Ident, g: Ident, fr: Frame, v: Value, w: Value)
    requires EvalFn(pr, prim, 0, g, []) == Some(Outcome([], [v, w]))
    ensures ExecStmt(pr, prim, 1, LetTuple([x, y], g, []), fr)
            == Some(fr.(locals := fr.locals[x := v][y := w], frozen := fr.frozen + {x, y}))
  {
    hide EvalFn, Bind;
    assert ByValues([]) == [];
    BindTwo(fr.locals, x, y, v, w);
    assert fr.frozen + Elements([x, y]) == fr.frozen + {x, y} by {
      assert [x, y][0] in Elements([x, y]) && [x, y][1] in Elements([x, y]);
    }
  }

  lemma ArgsOfTwo(prim: Prim, x: Ident, y: Ident, fr: Frame)
    requires x in fr.locals && y in fr.locals && fr.frozen == {}
    ensures EvalArgs(prim, [MutRef(PlaceVar(x)), MutRef(PlaceVar(y))], fr)
            == Some([PassRef(fr.locals[x]), PassRef(fr.locals[y])])
  {
    var args := [MutRef(PlaceVar(x)), MutRef(PlaceVar(y))];
    assert args[1..] == [MutRef(PlaceVar(y))] && args[1..][1..] == [];
    assert EvalArgs(prim, args[1..][1..], fr) == Some([]);
    assert EvalArgs(prim, args[1..], fr).value == [PassRef(fr.locals[y])];
    assert EvalArgs(prim, args, fr).value == [PassRef(fr.locals[x]), PassRef(fr.locals[y])];
  }

  lemma BindTwo(locals: map<Ident, Value>, x: Ident, y: Ident, v: Value, w: Value)
    ensures Bind(locals, [x, y], [v, w]) == locals[x := v][y := w]
  {
    assert [x, y][1..] == [y] && [v, w][1..] == [w] && [y][1..] == [] && [w][1..] == [];
    assert Bind(locals[x := v], [y], [w]) == Bind(locals[x := v][y := w], [y][1..], [w][1..]) == locals[x := v][y := w];
  }

  lemma NewCallerRuns(pr: Program, prim: Prim, h: Ident, g: Ident, out: Ident, x: Ident, y: Ident, a: Ident, b: Ident)
    requires x != y && out != x && out != y && a != b
    requires FindFn(pr.fns, h) == Some(NewCaller(h, g, out, x, y)) && FindFn(pr.fns, g) == Some(NewCallee(g, a, b))
    ensures EvalFn(pr, prim, 1, h, []) == Some(Outcome([], [Scalar(2)]))
  {
    var fn := NewCaller(h, g, out, x, y);
    NewCalleeRuns(pr, prim, 0, g, a, b);
    var end := NewCallerBodyRuns(pr, prim, h, g, out, x, y);
    hide ExecStmts;
    assert Select(end.locals, [out]).value == [Scalar(2)];
    assert MutParams(fn.params) == [];
    assert Select(end.refs, OutNames(fn.params)).value == [];
  }

  lemma NewCallerBodyRuns(pr: Program, prim: Prim, h: Ident, g: Ident, out: Ident, x: Ident, y: Ident)
    returns (end: Frame)
    requires x != y && out != x && out != y
    requires EvalFn(pr, prim, 0, g, []) == Some(Outcome([], [Scalar(2), Scalar(1)]))
    ensures ExecStmts(pr, prim, 1, NewCaller(h, g, out, x, y).body, Frame(map[], map[], {})) == Some(end)
    ensures end.refs == map[] && out in end.locals && end.locals[out] == Scalar(2)
  {
    hide EvalFn;
    var zero: map<Ident, Value> := map[out := Scalar(0)];
    var fr, fr1 := Frame(map[], map[], {}), Frame(zero, map[], {});
    var fr2, fr3 := Frame(zero[x := Scalar(0)], map[], {}), Frame(zero[x := Scalar(0)][y := Scalar(0)], map[], {});
    assert fr.frozen - {out} == {} && fr1.frozen - {x} == {} && fr2.frozen - {y} == {};
    TupleStep(pr, prim, x, y, g, fr3, Scalar(2), Scalar(1));
    var fr4 := Frame(fr3.locals[x := Scalar(2)][y := Scalar(1)], map[], fr3.frozen + {x, y});
    end := fr4.(locals := fr4.locals[out := Scalar(2)]);
    RunThrough(pr, prim, 1, NewCaller(h, g, out, x, y).body, [fr, fr1, fr2, fr3, fr4, end]);
  }

  // ----- the file -----

  lemma TwoFunctions(g: Fn, h: Fn)
    ensures ProgramOf([FnItem(g), FnItem(h)]) == Program(map[], [g, h])
  {
    var items := [FnItem(g), FnItem(h)];
    assert items[1..] == [FnItem(h)] && items[1..][1..] == [];
    assert FnsOf(items[1..][1..]) == [];
    assert FnsOf(items[1..]) == [h];
    assert FnsOf(items) == [g] + [h];
    assert RegistryOf(items, map[]) == RegistryOf(items[1..], map[]) == RegistryOf(items[1..][1..], map[]);
  }

  lemma RewriteTwoFunctions(g: Fn, h: Fn, g': Fn, h': Fn)
    requires RewriteFn(g, map[]) == Ok(g') && RewriteFn(h, map[]) == Ok(h')
    ensures RewriteItems([FnItem(g), FnItem(h)], map[]) == Ok([FnItem(g'), FnItem(h')])
  {
    hide RewriteFn;
    var items := [FnItem(g), FnItem(h)];
    assert items[1..] == [FnItem(h)] && items[1..][1..] == [];
    assert RewriteItems(items[1..][1..], map[]) == Ok([]);
    assert RewriteItems(items[1..], map[]).value == [FnItem(h')];
    assert RewriteItems(items, map[]).value == [FnItem(g'), FnItem(h')];
  }

  /** Two outputs out of order, with any names: the tool rewrites the file, and the value that `h`
      leaves in its output changes from 1 to 2. */
  lemma DisorderChangesMeaning(h: Ident, g: Ident, out: Ident, x: Ident, y: Ident, a: Ident, b: Ident, prim: Prim)
    requires Less(b, a) && g != h && x != y && out != x && out != y
    ensures var items := [FnItem(Callee(g, a, b)), FnItem(Caller(h, g, out, x, y))];
            && RewriteItems(items, map[]).Ok?
            && EvalFn(ProgramOf(items), prim, 1, h, [PassRef(Scalar(0))]) == Some(Outcome([Scalar(1)], []))
            && EvalFn(ProgramOf(RewriteItems(items, map[]).value), prim, 1, h, []) == Some(Outcome([], [Scalar(2)]))
  {
    LessIrreflexive(a);
    var fns, fns' := [Callee(g, a, b), Caller(h, g, out, x, y)], [NewCallee(g, a, b), NewCaller(h, g, out, x, y)];
    CalleeRewritten(g, a, b);
    CallerRewritten(h, g, out, x, y);
    RewriteTwoFunctions(fns[0], fns[1], fns'[0], fns'[1]);
    TwoFunctions(fns[0], fns[1]);
    TwoFunctions(fns'[0], fns'[1]);
    hide RewriteFn, RewriteItems, EvalFn, FnsOf, RegistryOf;
    assert fns[1..] == [fns[1]] && fns'[1..] == [fns'[1]];
    CallerRuns(Program(map[], fns), prim, h, g, out, x, y, a, b);
    NewCallerRuns(Program(map[], fns'), prim, h, g, out, x, y, a, b);
  }

  /** Numbered outputs go wrong at ten: a signature with `out2` before `out10`. */
  lemma NumberedOutputsSwap(prim: Prim)
    ensures var g: Ident, h: Ident, out1: Ident, out2: Ident, out10: Ident, x1: Ident, x2: Ident :=
              [103], [104], [111, 117, 116, 49], [111, 117, 116, 50], [111, 117, 116, 49, 48], [120, 49], [120, 50];
            var items := [FnItem(Callee(g, out2, out10)), FnItem(Caller(h, g, out1, x1, x2))];
            && RewriteItems(items, map[]).Ok?
            && EvalFn(ProgramOf(items), prim, 1, h, [PassRef(Scalar(0))]) == Some(Outcome([Scalar(1)], []))
            && EvalFn(ProgramOf(RewriteItems(items, map[]).value), prim, 1, h, []) == Some(Outcome([], [Scalar(2)]))
  {
    var g: Ident, h: Ident, out1: Ident, out2: Ident, out10: Ident, x1: Ident, x2: Ident :=
      [103], [104], [111, 117, 116, 49], [111, 117, 116, 50], [111, 117, 116, 49, 48], [120, 49], [120, 50];
    assert Less([49, 48], [50]) && out10[1..][1..][1..] == [49, 48] && out2[1..][1..][1..] == [50];
    assert Less(out10[1..][1..], out2[1..][1..]);
    assert g[0] != h[0] && x1[1] != x2[1] && |out1| != |x1|;
    DisorderChangesMeaning(h, g, out1, x1, x2, out2, out10, prim);
  }
}
