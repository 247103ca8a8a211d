/** Outputs must be fully written: a place that a function leaves alone keeps the caller's value in
    the original and becomes zero in the rewrite. */
module ConstifyWrites {
  import opened Common
  import opened OrderedMap
  import opened ConstifySyntax
  import opened ConstifyTypes
  import opened ConstifySemantics
  import opened ConstifyRewrite
  import opened ConstifyPreservation

  /** The integer at place `i` of a value. */
  function PlaceAt(v: Value, i: nat): Option<int> {
    match v
    case Scalar(n) => if i == 0 then Some(n) else None
    case Arr(s) => if i < |s| then Some(s[i]) else None
  }

  // ----- untouched places keep their values -----

  lemma {:induction false} UnwrittenBefore(body: seq<Stmt>, u: Places, x: Ident, i: nat)
    requires (x, i) in Unwritten(body, u)
    ensures (x, i) in u
    decreases |body|
  {
    if body != [] {
      UnwrittenBefore(body[1..], After(body[0], u), x, i);
    }
  }

  lemma OriginalStepKeeps(pr: Program, prim: Prim, depth: nat, s: Stmt, outs: set<Ident>, u: Places, z: set<Ident>,
                          fr: Frame, x: Ident, i: nat)
    requires GoodStmt(s, outs, u, z, pr) && x in outs && (x, i) in After(s, u)
    requires x in fr.refs && x !in fr.locals && ExecStmt(pr, prim, depth, s, fr).Some?
    ensures var next := ExecStmt(pr, prim, depth, s, fr).value;
            x in next.refs && x !in next.locals && PlaceAt(next.refs[x], i) == PlaceAt(fr.refs[x], i)
  {
    hide EvalFn, EvalArgs, EvalExpr, Bind, ReadsWritten, ArgsReadWritten, Aligned, FindFn, Targets;
    if s.Call? {
      var vals := EvalArgs(prim, s.args, fr).value;
      BindKeys(fr.locals, Targets(s.args), EvalFn(pr, prim, depth - 1, s.f, vals).value.outs, x);
    }
  }

  lemma {:induction false} OriginalKeeps(pr: Program, prim: Prim, depth: nat, body: seq<Stmt>, outs: set<Ident>,
                                         u: Places, z: set<Ident>, fr: Frame, x: Ident, i: nat)
    requires Careful(body, outs, u, z, pr) && x in outs && (x, i) in Unwritten(body, u)
    requires x in fr.refs && x !in fr.locals && ExecStmts(pr, prim, depth, body, fr).Some?
    ensures var end := ExecStmts(pr, prim, depth, body, fr).value;
            x in end.refs && PlaceAt(end.refs[x], i) == PlaceAt(fr.refs[x], i)
    decreases |body|
  {
    hide ExecStmt, After, PlaceAt, GoodStmt;
    if body != [] {
      UnwrittenBefore(body[1..], After(body[0], u), x, i);
      OriginalStepKeeps(pr, prim, depth, body[0], outs, u, z, fr, x, i);
      OriginalKeeps(pr, prim, depth, body[1..], outs, After(body[0], u), FrozenAfter(body[0], z),
                    ExecStmt(pr, prim, depth, body[0], fr).value, x, i);
    }
  }

  lemma RewrittenStepKeeps(pr: Program, pr': Program, prim: Prim, depth: nat, s: Stmt, outs: set<Ident>, u: Places,
                           z: set<Ident>, fr': Frame, x: Ident, i: nat)
    requires GoodStmt(s, outs, u, z, pr) && x in outs && (x, i) in After(s, u)
    requires x in fr'.locals && RewriteStmt(s).Ok? && ExecStmt(pr', prim, depth, RewriteStmt(s).value, fr').Some?
    ensures var next' := ExecStmt(pr', prim, depth, RewriteStmt(s).value, fr').value;
            x in next'.locals && PlaceAt(next'.locals[x], i) == PlaceAt(fr'.locals[x], i)
  {
    hide EvalFn, EvalExprs, EvalExpr, Bind, ReadsWritten, ArgsReadWritten, Aligned, FindFn, Targets, PlainArgs;
    if s.Call? {
      var vs := EvalExprs(prim, PlainArgs(s.args), fr').value;
      BindKeys(fr'.locals, Targets(s.args), EvalFn(pr', prim, depth - 1, s.f, ByValues(vs)).value.ret, x);
    }
  }

  lemma {:induction false} RewrittenKeeps(pr: Program, pr': Program, prim: Prim, depth: nat, body: seq<Stmt>,
                                          outs: set<Ident>, u: Places, z: set<Ident>, fr': Frame, x: Ident, i: nat)
    requires Careful(body, outs, u, z, pr) && x in outs && (x, i) in Unwritten(body, u)
    requires x in fr'.locals && RewriteStmts(body).Ok?
    requires ExecStmts(pr', prim, depth, RewriteStmts(body).value, fr').Some?
    ensures var end' := ExecStmts(pr', prim, depth, RewriteStmts(body).value, fr').value;
            x in end'.locals && PlaceAt(end'.locals[x], i) == PlaceAt(fr'.locals[x], i)
    decreases |body|
  {
    hide ExecStmt, After, PlaceAt, GoodStmt, RewriteStmt;
    if body != [] {
      UnwrittenBefore(body[1..], After(body[0], u), x, i);
      assert RewriteStmts(body).value[1..] == RewriteStmts(body[1..]).value;
      RewrittenStepKeeps(pr, pr', prim, depth, body[0], outs, u, z, fr', x, i);
      RewrittenKeeps(pr, pr', prim, depth, body[1..], outs, After(body[0], u), FrozenAfter(body[0], z),
                     ExecStmt(pr', prim, depth, RewriteStmt(body[0]).value, fr').value, x, i);
    }
  }

  // ----- what a careful function does not depend on -----

  /** Two frames of the same function that differ in places of `u` only. */
  predicate Alike(fr: Frame, g: Frame, u: Places) {
    && fr.locals.Keys == g.locals.Keys && fr.refs.Keys == g.refs.Keys && fr.frozen == g.frozen
    && fr.locals.Keys !! fr.refs.Keys
    && (forall x :: x in fr.locals.Keys ==> Agree(x, fr.locals[x], g.locals[x], u))
    && (forall x :: x in fr.refs.Keys ==> Agree(x, fr.refs[x], g.refs[x], u))
  }

  ghost predicate OnlyOutputs(u: Places, outs: set<Ident>) {
    forall q :: q in u ==> q.0 in outs
  }

  lemma {:induction false} ExprAlike(prim: Prim, e: Expr, fr: Frame, g: Frame, u: Places)
    requires Alike(fr, g, u) && ReadsWritten(e, u) && EvalExpr(prim, e, fr).Some?
    ensures EvalExpr(prim, e, g) == EvalExpr(prim, e, fr)
  {
    match e
    case Lit(_) =>
    case Fill(_, _) =>
    case Var(x) =>
      assert x in fr.locals.Keys;
      AgreeWhole(x, fr.locals[x], g.locals[x], u);
    case Index(x, i) =>
      assert x in fr.locals.Keys || x in fr.refs.Keys;
    case Op(_, l, r) =>
      ExprAlike(prim, l, fr, g, u);
      ExprAlike(prim, r, fr, g, u);
  }

  lemma {:induction false} ArgsAlike(prim: Prim, args: seq<Arg>, fr: Frame, g: Frame, u: Places, outs: set<Ident>)
    requires Alike(fr, g, u) && ArgsReadWritten(args, u) && OnlyOutputs(u, outs)
    requires (forall x :: x in Targets(args) ==> x !in outs) && EvalArgs(prim, args, fr).Some?
    ensures EvalArgs(prim, args, g) == EvalArgs(prim, args, fr)
  {
    if args != [] {
      assert forall x :: x in Targets(args[1..]) ==> x in Targets(args);
      ArgsAlike(prim, args[1..], fr, g, u, outs);
      assert args[0] in args;
      match args[0] {
        case Plain(e) =>
          ExprAlike(prim, e, fr, g, u);
        case MutRef(p) =>
          assert p.x in Targets(args) && p.x in fr.locals.Keys;
          AgreeWhole(p.x, fr.locals[p.x], g.locals[p.x], u);
      }
    }
  }

  lemma AgreeAfter(y: Ident, v: Value, w: Value, u: Places, u': Places)
    requires Agree(y, v, w, u) && forall i: nat :: (y, i) in u ==> (y, i) in u'
    ensures Agree(y, v, w, u')
  {
    if v.Arr? {
      forall i: nat | i < |v.elems|
        ensures Untouched(y, i, u') || v.elems[i] == w.elems[i]
      {
        assert Untouched(y, i, u) || v.elems[i] == w.elems[i];
      }
    }
  }

  lemma LetAlike(fr: Frame, g: Frame, u: Places, x: Ident, e: Expr, v: Value)
    requires Alike(fr, g, u) && x !in fr.refs
    ensures Alike(fr.(locals := fr.locals[x := v], frozen := fr.frozen - {x}),
                  g.(locals := g.locals[x := v], frozen := g.frozen - {x}), After(Let(x, e), u))
  {
    hide Agree;
    var u' := After(Let(x, e), u);
    AgreeSelf(x, v, u');
    forall y | y in fr.locals.Keys && y != x
      ensures Agree(y, fr.locals[y], g.locals[y], u')
    {
      AgreeAfter(y, fr.locals[y], g.locals[y], u, u');
    }
    forall y | y in fr.refs.Keys
      ensures Agree(y, fr.refs[y], g.refs[y], u')
    {
      AgreeAfter(y, fr.refs[y], g.refs[y], u, u');
    }
  }

  lemma BindAlike(fr: Frame, g: Frame, u: Places, f: Ident, args: seq<Arg>, vs: seq<Value>)
    requires Alike(fr, g, u) && |vs| == |Targets(args)|
    requires forall x :: x in Targets(args) ==> x !in fr.refs
    ensures Alike(fr.(locals := Bind(fr.locals, Targets(args), vs)), g.(locals := Bind(g.locals, Targets(args), vs)),
                  After(Call(f, args), u))
  {
    hide Agree, Bind, Targets;
    var xs, u' := Targets(args), After(Call(f, args), u);
    var l, m := Bind(fr.locals, xs, vs), Bind(g.locals, xs, vs);
    forall y
      ensures y in l <==> y in fr.locals || y in xs
      ensures y in m <==> y in g.locals || y in xs
    {
      BindKeys(fr.locals, xs, vs, y);
      BindKeys(g.locals, xs, vs, y);
    }
    forall y | y in l.Keys
      ensures Agree(y, l[y], m[y], u')
    {
      BindKeys(fr.locals, xs, vs, y);
      BindKeys(g.locals, xs, vs, y);
      if y in xs {
        BindSame(fr.locals, g.locals, xs, vs, y);
        AgreeSelf(y, l[y], u');
      } else {
        assert y in fr.locals.Keys;
        AgreeAfter(y, fr.locals[y], g.locals[y], u, u');
      }
    }
    forall y | y in fr.refs.Keys
      ensures Agree(y, fr.refs[y], g.refs[y], u')
    {
      AgreeAfter(y, fr.refs[y], g.refs[y], u, u');
    }
    assert l.Keys == m.Keys;
  }

  lemma StoreDefinedAlike(fr: Frame, g: Frame, u: Places, place: Place, v: Value)
    requires Alike(fr, g, u) && Store(fr, place, v).Some?
    ensures Store(g, place, v).Some?
  {
    assert place.x in fr.locals.Keys || place.x in fr.refs.Keys;
  }

  lemma StoreAlike(fr: Frame, g: Frame, u: Places, place: Place, e: Expr, v: Value)
    requires Alike(fr, g, u) && Store(fr, place, v).Some?
    ensures Store(g, place, v).Some?
    ensures Alike(Store(fr, place, v).value, Store(g, place, v).value, After(Assign(place, e), u))
  {
    StoreDefinedAlike(fr, g, u, place, v);
    StorePuts(fr, place, v);
    StorePuts(g, place, v);
    hide Agree, Alike, Store;
    var x, u' := place.x, After(Assign(place, e), u);
    AlikeAt(fr, g, u, x);
    StoredAgree(place, u, e, Lookup(fr, x).value, Lookup(g, x).value, v);
    PutAlike(fr, g, u, u', x, Stored(place, Lookup(fr, x).value, v), Stored(place, Lookup(g, x).value, v));
  }

  lemma AlikeAt(fr: Frame, g: Frame, u: Places, x: Ident)
    requires Alike(fr, g, u) && Lookup(fr, x).Some?
    ensures (x in fr.locals <==> x in g.locals) && (x in fr.refs <==> x in g.refs)
    ensures Lookup(g, x).Some? && Agree(x, Lookup(fr, x).value, Lookup(g, x).value, u)
  {
    hide Agree;
    assert x in fr.locals.Keys || x in fr.refs.Keys;
  }

  /** A variable changes in both frames. */
  lemma PutAlike(fr: Frame, g: Frame, u: Places, u': Places, x: Ident, v: Value, w: Value)
    requires Alike(fr, g, u) && Lookup(fr, x).Some? && Agree(x, v, w, u')
    requires forall p :: p in u && p.0 != x ==> p in u'
    ensures Alike(Put(fr, x, v), Put(g, x, w), u')
  {
    hide Agree;
    assert x in fr.locals.Keys || x in fr.refs.Keys;
    forall y | y in fr.locals.Keys && y != x
      ensures Agree(y, fr.locals[y], g.locals[y], u')
    {
      AgreeAfter(y, fr.locals[y], g.locals[y], u, u');
    }
    forall y | y in fr.refs.Keys && y != x
      ensures Agree(y, fr.refs[y], g.refs[y], u')
    {
      AgreeAfter(y, fr.refs[y], g.refs[y], u, u');
    }
  }

  /** A statement runs alike, in frames that differ only where it does not read. */
  lemma StmtAlike(pr: Program, prim: Prim, depth: nat, s: Stmt, u: Places, z: set<Ident>, fr: Frame, g: Frame)
    requires Alike(fr, g, u) && OnlyOutputs(u, fr.refs.Keys) && GoodStmt(s, fr.refs.Keys, u, z, pr)
    requires ExecStmt(pr, prim, depth, s, fr).Some?
    ensures var next, next2 := ExecStmt(pr, prim, depth, s, fr), ExecStmt(pr, prim, depth, s, g);
            next2.Some? && Alike(next.value, next2.value, After(s, u)) && next.value.refs.Keys == fr.refs.Keys
    ensures OnlyOutputs(After(s, u), fr.refs.Keys)
  {
    hide Alike, EvalExpr, EvalArgs, Bind, Store, EvalFn, Targets, Aligned, FindFn, ReadsWritten, ArgsReadWritten;
    match s {
      case Let(x, e) =>
        ExprAlike(prim, e, fr, g, u);
        LetAlike(fr, g, u, x, e, EvalExpr(prim, e, fr).value);
      case Assign(place, e) =>
        ExprAlike(prim, e, fr, g, u);
        StoreAlike(fr, g, u, place, e, EvalExpr(prim, e, fr).value);
        StoreKeys(fr, place, EvalExpr(prim, e, fr).value);
      case Call(f, args) =>
        ArgsAlike(prim, args, fr, g, u, fr.refs.Keys);
        BindAlike(fr, g, u, f, args, EvalFn(pr, prim, depth - 1, f, EvalArgs(prim, args, fr).value).value.outs);
    }
  }

  lemma StoreKeys(fr: Frame, place: Place, v: Value)
    requires Store(fr, place, v).Some?
    ensures Store(fr, place, v).value.refs.Keys == fr.refs.Keys
  {
  }

  lemma {:induction false} BodyAlike(pr: Program, prim: Prim, depth: nat, body: seq<Stmt>, u: Places, z: set<Ident>,
                                     fr: Frame, g: Frame)
    requires Alike(fr, g, u) && OnlyOutputs(u, fr.refs.Keys) && Careful(body, fr.refs.Keys, u, z, pr)
    requires ExecStmts(pr, prim, depth, body, fr).Some?
    ensures ExecStmts(pr, prim, depth, body, g).Some?
    ensures ExecStmts(pr, prim, depth, body, g).value.refs.Keys == fr.refs.Keys
    decreases |body|
  {
    hide ExecStmt, After, GoodStmt, OnlyOutputs;
    if body != [] {
      StmtAlike(pr, prim, depth, body[0], u, z, fr, g);
      BodyAlike(pr, prim, depth, body[1..], After(body[0], u), FrozenAfter(body[0], z),
                ExecStmt(pr, prim, depth, body[0], fr).value, ExecStmt(pr, prim, depth, body[0], g).value);
    }
  }

  // ----- the caller passes ones -----

  function OnesLike(v: Value): Value {
    match v
    case Scalar(_) => Scalar(1)
    case Arr(s) => Arr(Repeat(1, |s|))
  }

  /** The same arguments, with ones behind every reference. */
  function WithOnes(args: seq<ArgVal>): seq<ArgVal> {
    if args == [] then []
    else [if args[0].PassRef? then PassRef(OnesLike(args[0].v)) else args[0]] + WithOnes(args[1..])
  }

  lemma {:induction false} OnesKeepValues(args: seq<ArgVal>)
    ensures ValuesOf(WithOnes(args)) == ValuesOf(args)
  {
    if args != [] {
      OnesKeepValues(args[1..]);
      assert WithOnes(args)[1..] == WithOnes(args[1..]);
    }
  }

  lemma {:induction false} OnesBind(params: seq<Param>, args: seq<ArgVal>, reg: Registry)
    requires BindParams(params, args, reg).Some?
    ensures BindParams(params, WithOnes(args), reg).Some?
    ensures var fr, g := BindParams(params, args, reg).value, BindParams(params, WithOnes(args), reg).value;
            && g.locals == fr.locals && g.frozen == fr.frozen && g.refs.Keys == fr.refs.Keys
            && forall x :: x in fr.refs.Keys ==> g.refs[x] == OnesLike(fr.refs[x])
  {
    hide ShapeOf;
    if params != [] {
      OnesBind(params[1..], args[1..], reg);
      assert WithOnes(args)[1..] == WithOnes(args[1..]);
    }
  }

  lemma EntryAlike(params: seq<Param>, args: seq<ArgVal>, reg: Registry)
    requires BindParams(params, args, reg).Some? && Distinct(Names(params))
    ensures BindParams(params, WithOnes(args), reg).Some?
    ensures Alike(BindParams(params, args, reg).value, BindParams(params, WithOnes(args), reg).value,
                  EntryPlaces(MutParams(params), reg))
  {
    OnesBind(params, args, reg);
    EntryFrame(params, args, reg);
    var fr, g := BindParams(params, args, reg).value, BindParams(params, WithOnes(args), reg).value;
    hide BindParams, WithOnes, EntryPlaces, HasType;
    var u := EntryPlaces(MutParams(params), reg);
    forall x | x in fr.locals.Keys
      ensures Agree(x, fr.locals[x], g.locals[x], u)
    {
      AgreeSelf(x, fr.locals[x], u);
    }
    forall x | x in fr.refs.Keys
      ensures Agree(x, fr.refs[x], g.refs[x], u)
    {
      OutNamesAre(params, x);
      var p :| p in params && p.ByMutRef? && p.name == x;
      MutParamsAre(params, p);
      EntryPlacesCover(MutParams(params), reg, p);
      OnesAgree(x, fr.refs[x], p.ty, reg, u);
    }
  }

  lemma OnesAgree(x: Ident, v: Value, ty: Type, reg: Registry, u: Places)
    requires HasType(v, ty, reg) && PlacesOf(x, ShapeOf(ty, reg)) <= u
    ensures Agree(x, v, OnesLike(v), u)
  {
    EntryAgree(x, v, OnesLike(v), ShapeOf(ty, reg).value, u);
  }

  // ----- the exact condition -----

  lemma {:induction false} PlaceOfParam(params: seq<Param>, reg: Registry, x: Ident, i: nat) returns (p: Param)
    requires (x, i) in EntryPlaces(params, reg)
    ensures p in params && p.name == x && (x, i) in PlacesOf(x, ShapeOf(p.ty, reg))
  {
    p := params[0];
    if (x, i) !in PlacesOf(p.name, ShapeOf(p.ty, reg)) {
      p := PlaceOfParam(params[1..], reg, x, i);
    }
  }

  lemma PlaceInside(x: Ident, i: nat, v: Value, ty: Type, reg: Registry)
    requires HasType(v, ty, reg) && (x, i) in PlacesOf(x, ShapeOf(ty, reg))
    ensures PlaceAt(OnesLike(v), i) == Some(1) && PlaceAt(ValueFor(ty, reg, 0), i) == Some(0)
  {
    hide ShapeOf;
  }

  /** The frame that a careful function enters with ones behind its references. */
  lemma {:induction false} OnesEntry(params: seq<Param>, args: seq<ArgVal>, reg: Registry, x: Ident, i: nat)
    requires BindParams(params, args, reg).Some? && Distinct(Names(params)) && OutputsOf(params, []).Ok?
    requires x in OutNames(params) && (x, i) in EntryPlaces(MutParams(params), reg)
    ensures BindParams(params, WithOnes(args), reg).Some?
    ensures var fr, g := BindParams(params, args, reg).value, BindParams(params, WithOnes(args), reg).value;
            && fr.refs.Keys == Elements(OutNames(params)) == g.refs.Keys
            && x in g.refs && x !in g.locals && PlaceAt(g.refs[x], i) == Some(1)
  {
    hide EntryPlaces, WithOnes, OutputsOf, PlaceAt, ShapeOf, BindParams, HasType, MutParams, PlacesOf, OnesLike, Names;
    OnesBind(params, args, reg);
    OutputsOfIncreasing(params, []);
    EntryKeys(params, args, reg, OutputsOf(params, []).value);
    var p := PlaceOfParam(MutParams(params), reg, x, i);
    RefOfParam(params, args, reg, p);
    PlaceInside(x, i, BindParams(params, args, reg).value.refs[x], p.ty, reg);
  }

  lemma RefOfParam(params: seq<Param>, args: seq<ArgVal>, reg: Registry, p: Param)
    requires BindParams(params, args, reg).Some? && Distinct(Names(params)) && p in MutParams(params)
    ensures var fr := BindParams(params, args, reg).value;
            p.name in fr.refs && p.name !in fr.locals && HasType(fr.refs[p.name], p.ty, reg)
  {
    hide BindParams, HasType;
    MutParamsAre(params, p);
    EntryFrame(params, args, reg);
    assert p.name in BindParams(params, args, reg).value.refs.Keys;
  }

  lemma EntryOnlyOutputs(params: seq<Param>, reg: Registry)
    ensures OnlyOutputs(EntryPlaces(MutParams(params), reg), Elements(OutNames(params)))
  {
    EntryPlacesNamed(MutParams(params), reg);
  }

  /** The original with ones behind its references leaves the one at an unwritten place. */
  lemma {:induction false} OriginalLeavesOne(pr: Program, prim: Prim, depth: nat, fn: Fn, args: seq<ArgVal>,
                                             x: Ident, i: nat)
    returns (end: Frame)
    requires CarefulFn(fn, pr) && OutputsOf(fn.params, []).Ok? && RunFn(pr, prim, depth, fn, args).Some?
    requires x in OutNames(fn.params) && (x, i) in Unwritten(fn.body, EntryPlaces(MutParams(fn.params), pr.reg))
    ensures BindParams(fn.params, WithOnes(args), pr.reg).Some?
    ensures ExecStmts(pr, prim, depth, fn.body, BindParams(fn.params, WithOnes(args), pr.reg).value) == Some(end)
    ensures end.refs.Keys == Elements(OutNames(fn.params)) && x in end.refs && PlaceAt(end.refs[x], i) == Some(1)
  {
    hide BindParams, WithOnes, EntryPlaces, Careful, ExecStmts, Alike, OutputsOf, MutParams, PlaceAt, Unwritten, Select,
         OnlyOutputs;
    var u := EntryPlaces(MutParams(fn.params), pr.reg);
    UnwrittenBefore(fn.body, u, x, i);
    EntryAlike(fn.params, args, pr.reg);
    OnesEntry(fn.params, args, pr.reg, x, i);
    EntryOnlyOutputs(fn.params, pr.reg);
    var fr, g := BindParams(fn.params, args, pr.reg).value, BindParams(fn.params, WithOnes(args), pr.reg).value;
    BodyAlike(pr, prim, depth, fn.body, u, {}, fr, g);
    end := ExecStmts(pr, prim, depth, fn.body, g).value;
    OriginalKeeps(pr, prim, depth, fn.body, fr.refs.Keys, u, {}, g, x, i);
  }

  /** The rewrite leaves the zero there that it starts with. */
  lemma {:induction false} RewriteLeavesZero(pr: Program, pr': Program, prim: Prim, depth: nat, fn: Fn, fn': Fn,
                                             args: seq<ArgVal>, x: Ident, i: nat)
    returns (end': Frame)
    requires Rewritten(pr, pr') && GoodProgram(pr)
    requires RewriteFn(fn, pr.reg) == Ok(fn') && CarefulFn(fn, pr) && RunFn(pr, prim, depth, fn, args).Some?
    requires x in OutNames(fn.params) && (x, i) in Unwritten(fn.body, EntryPlaces(MutParams(fn.params), pr.reg))
    ensures var entry' := BindParams(fn'.params, ByValues(ValuesOf(args)), pr'.reg);
            entry'.Some? && ExecStmts(pr', prim, depth, fn'.body, entry'.value) == Some(end')
    ensures x in end'.locals && PlaceAt(end'.locals[x], i) == Some(0)
  {
    hide BindParams, EntryPlaces, Careful, ExecStmts, ExecStmt, Related, OutputsOf, PlaceAt, Unwritten, RewriteStmts,
         ValueFor, Select, LetBindings, Initialised, OutNames, MutParams, PlacesOf, ShapeOf, Names, ReturnTypes, Inputs,
         Rewritten, GoodProgram;
    var u := EntryPlaces(MutParams(fn.params), pr.reg);
    UnwrittenBefore(fn.body, u, x, i);
    var p := PlaceOfParam(MutParams(fn.params), pr.reg, x, i);
    assert pr'.reg == pr.reg by {
      SameRegistry(pr, pr');
    }
    var fr' := EntrySimulated(pr', prim, depth, fn, fn', args);
    ZeroInside(fn.params, args, pr.reg, p, i, fr'.locals);
    end' := BodyPreserved(pr, pr', prim, depth, fn.body, u, BindParams(fn.params, args, pr.reg).value, fr');
    RewrittenKeeps(pr, pr', prim, depth, fn.body, Elements(OutNames(fn.params)), u, {}, fr', x, i);
  }

  lemma SameRegistry(pr: Program, pr': Program)
    requires Rewritten(pr, pr')
    ensures pr'.reg == pr.reg
  {
  }

  lemma ZeroInside(params: seq<Param>, args: seq<ArgVal>, reg: Registry, p: Param, i: nat, locals: map<Ident, Value>)
    requires BindParams(params, args, reg).Some? && Distinct(Names(params)) && OutputsOf(params, []).Ok?
    requires p in MutParams(params) && (p.name, i) in PlacesOf(p.name, ShapeOf(p.ty, reg))
    requires Initialised(OutputsOf(params, []).value, reg, locals)
    ensures p.name in locals && PlaceAt(locals[p.name], i) == Some(0)
  {
    hide BindParams, OutputsOf, HasType, PlaceAt, ValueFor, Get, MutParams, ShapeOf, PlacesOf, Names;
    var outputs := OutputsOf(params, []).value;
    MutParamsAre(params, p);
    OutputsGet(params, [], p.name);
    GetIn(outputs, p.name);
    RefOfParam(params, args, reg, p);
    PlaceInside(p.name, i, BindParams(params, args, reg).value.refs[p.name], p.ty, reg);
    assert (p.name, p.ty) in outputs;
  }

  /** An unwritten place gives the caller away: with ones behind the references, the original leaves a
      one there, and the rewrite returns a zero. */
  lemma {:induction false} UnwrittenDiffers(pr: Program, pr': Program, prim: Prim, depth: nat, fn: Fn, fn': Fn,
                                            args: seq<ArgVal>, x: Ident, i: nat)
    requires Rewritten(pr, pr') && GoodProgram(pr)
    requires RewriteFn(fn, pr.reg) == Ok(fn') && CarefulFn(fn, pr) && RunFn(pr, prim, depth, fn, args).Some?
    requires x in OutNames(fn.params) && (x, i) in Unwritten(fn.body, EntryPlaces(MutParams(fn.params), pr.reg))
    ensures ValuesOf(WithOnes(args)) == ValuesOf(args) && RunFn(pr, prim, depth, fn, WithOnes(args)).Some?
    ensures !RunAgrees(pr, pr', prim, depth, fn, fn', WithOnes(args))
  {
    hide ExecStmts, BindParams, EntryPlaces, Unwritten, Careful, WithOnes, PlaceAt, Aligned, MutParams, OutputsOf,
         LetBindings, RewriteStmts, SameOutputs, Rewritten, GoodProgram, ValuesOf, Inputs;
    OnesKeepValues(args);
    var end := OriginalLeavesOne(pr, prim, depth, fn, args, x, i);
    RunIs(pr, prim, depth, fn, WithOnes(args), end);
    var end' := RewriteLeavesZero(pr, pr', prim, depth, fn, fn', WithOnes(args), x, i);
    RunIs(pr', prim, depth, fn', ByValues(ValuesOf(WithOnes(args))), end');
    hide RunFn;
    if RunAgrees(pr, pr', prim, depth, fn, fn', WithOnes(args)) {
      SameUnderName(fn.params, end, end', x);
    }
  }

  lemma SameUnderName(params: seq<Param>, end: Frame, end': Frame, x: Ident)
    requires x in OutNames(params) && OutputsOf(params, []).Ok?
    requires Select(end.refs, OutNames(params)).Some?
    requires Select(end'.locals, Keys(OutputsOf(params, []).value)).Some?
    requires SameOutputs(params, Select(end.refs, OutNames(params)).value,
                         Select(end'.locals, Keys(OutputsOf(params, []).value)).value)
    ensures x in end.refs && x in end'.locals && end.refs[x] == end'.locals[x]
  {
    hide OutputsOf, MutParams;
    var names, sorted := OutNames(params), Keys(OutputsOf(params, []).value);
    var k :| 0 <= k < |names| && names[k] == x;
    assert x in sorted;
    var j :| 0 <= j < |sorted| && sorted[j] == x;
  }

  /** For all arguments with the given values and anything behind the references, the rewritten
      function returns what the original leaves. */
  ghost predicate AlwaysAgrees(pr: Program, pr': Program, prim: Prim, depth: nat, fn: Fn, fn': Fn, values: seq<Value>) {
    forall args :: ValuesOf(args) == values && RunFn(pr, prim, depth, fn, args).Some? ==>
      RunAgrees(pr, pr', prim, depth, fn, fn', args)
  }

  /** Writing the outputs fully is exactly what is needed: a careful function that may call the
      functions of a good program, and that runs at all, keeps its meaning for everything that its
      caller may hold behind the references if and only if it writes every place of its outputs. */
  lemma {:induction false} FullyWrittenIff(pr: Program, pr': Program, prim: Prim, depth: nat, fn: Fn, fn': Fn,
                                           args: seq<ArgVal>)
    requires Rewritten(pr, pr') && GoodProgram(pr)
    requires RewriteFn(fn, pr.reg) == Ok(fn') && CarefulFn(fn, pr) && RunFn(pr, prim, depth, fn, args).Some?
    ensures FullyWritten(fn, pr.reg) <==> AlwaysAgrees(pr, pr', prim, depth, fn, fn', ValuesOf(args))
  {
    hide RunFn, RunAgrees, RewriteFn, CarefulFn, GoodProgram, Rewritten, OutNames, EntryPlaces, Unwritten, WithOnes,
         ValuesOf;
    if FullyWritten(fn, pr.reg) {
      forall other | ValuesOf(other) == ValuesOf(args) && RunFn(pr, prim, depth, fn, other).Some?
        ensures RunAgrees(pr, pr', prim, depth, fn, fn', other)
      {
        RunPreserved(pr, pr', prim, depth, fn, fn', other);
      }
    } else {
      var u := Unwritten(fn.body, EntryPlaces(MutParams(fn.params), pr.reg));
      var x :| x in OutNames(fn.params) && !Whole(x, u);
      var i: nat :| Untouched(x, i, u);
      UnwrittenDiffers(pr, pr', prim, depth, fn, fn', args, x, i);
    }
  }
}
