/** What the programs mean: one evaluator for the code before and after the rewrite. A `&mut`
    argument is copied in and copied back, which Rust's ban on aliasing justifies. `depth` bounds
    the nesting of calls, so recursive programs have a meaning at every depth too. */
module ConstifySemantics {
  import opened Common
  import opened ConstifySyntax
  import opened ConstifyTypes

  datatype Value = Scalar(n: int) | Arr(elems: seq<int>)

  /** The meaning of the arithmetic operators, left open. */
  type Prim = (Ident, int, int) -> int

  datatype Program = Program(reg: Registry, fns: seq<Fn>)

  /** The variables of a running function: its locals and what its `&mut` parameters point to.
      A local hides a parameter of the same name. A tuple pattern binds without `mut`: the compiler
      rejects assignments to what it has bound, and they have no meaning here. */
  datatype Frame = Frame(locals: map<Ident, Value>, refs: map<Ident, Value>, frozen: set<Ident>)

  datatype ArgVal = PassValue(v: Value) | PassRef(v: Value)

  /** What a call leaves behind its `&mut` arguments, and the tuple that it returns. */
  datatype Outcome = Outcome(outs: seq<Value>, ret: seq<Value>)

  predicate HasShape(v: Value, sh: Shape) {
    match sh
    case ScalarShape => v.Scalar?
    case ArrayShape(n) => v.Arr? && |v.elems| == n
  }

  predicate HasType(v: Value, ty: Type, reg: Registry) {
    var sh := ShapeOf(ty, reg);
    sh.Some? && HasShape(v, sh.value)
  }

  /** The value of the type that is `n` everywhere. */
  function ValueFor(ty: Type, reg: Registry, n: int): Value {
    match ShapeOf(ty, reg)
    case Some(ArrayShape(len)) => Arr(Repeat(n, len))
    case _ => Scalar(n)
  }

  predicate SameShape(v: Value, w: Value) {
    match (v, w)
    case (Scalar(_), Scalar(_)) => true
    case (Arr(s), Arr(t)) => |s| == |t|
    case _ => false
  }

  function Lookup(fr: Frame, x: Ident): Option<Value> {
    if x in fr.locals then Some(fr.locals[x])
    else if x in fr.refs then Some(fr.refs[x])
    else None
  }

  function EvalExpr(prim: Prim, e: Expr, fr: Frame): Option<Value> {
    match e
    case Lit(n) => Some(Scalar(n))
    case Fill(n, len) => Some(Arr(Repeat(n, len)))
    case Var(x) => if x in fr.locals then Some(fr.locals[x]) else None
    case Deref(x) => if x !in fr.locals && x in fr.refs then Some(fr.refs[x]) else None
    case Index(x, i) =>
      var v := Lookup(fr, x);
      if v.Some? && v.value.Arr? && i < |v.value.elems| then Some(Scalar(v.value.elems[i])) else None
    case Op(op, l, r) =>
      var a := EvalExpr(prim, l, fr);
      var b := EvalExpr(prim, r, fr);
      if a.Some? && a.value.Scalar? && b.Some? && b.value.Scalar?
      then Some(Scalar(prim(op, a.value.n, b.value.n))) else None
  }

  function EvalExprs(prim: Prim, es: seq<Expr>, fr: Frame): Option<seq<Value>> {
    if es == [] then Some([])
    else
      var v := EvalExpr(prim, es[0], fr);
      var vs := EvalExprs(prim, es[1..], fr);
      if v.Some? && vs.Some? then Some([v.value] + vs.value) else None
  }

  function EvalArgs(prim: Prim, args: seq<Arg>, fr: Frame): Option<seq<ArgVal>> {
    if args == [] then Some([])
    else
      var rest := EvalArgs(prim, args[1..], fr);
      var a := match args[0]
        case Plain(e) =>
          var v := EvalExpr(prim, e, fr);
          if v.Some? then Some(PassValue(v.value)) else None
        case MutRef(p) =>
          if p.PlaceVar? && p.x in fr.locals && p.x !in fr.frozen then Some(PassRef(fr.locals[p.x])) else None;
      if a.Some? && rest.Some? then Some([a.value] + rest.value) else None
  }

  /** An assignment of a value of the same type to a place that may be assigned. */
  function Store(fr: Frame, place: Place, v: Value): Option<Frame> {
    match place
    case PlaceVar(x) =>
      if x in fr.locals && x !in fr.frozen && SameShape(fr.locals[x], v)
      then Some(fr.(locals := fr.locals[x := v])) else None
    case PlaceDeref(x) =>
      if x !in fr.locals && x in fr.refs && SameShape(fr.refs[x], v)
      then Some(fr.(refs := fr.refs[x := v])) else None
    case PlaceIndex(x, i) =>
      var cur := Lookup(fr, x);
      if cur.Some? && cur.value.Arr? && i < |cur.value.elems| && v.Scalar? && x !in fr.frozen then
        var updated := Arr(cur.value.elems[i := v.n]);
        Some(if x in fr.locals then fr.(locals := fr.locals[x := updated])
             else fr.(refs := fr.refs[x := updated]))
      else None
  }

  /** The frame after a variable has changed. */
  function Put(fr: Frame, x: Ident, v: Value): Frame {
    if x in fr.locals then fr.(locals := fr.locals[x := v]) else fr.(refs := fr.refs[x := v])
  }

  /** What a variable that holds `cur` holds after an assignment of `v` to a place of it. */
  function Stored(place: Place, cur: Value, v: Value): Value {
    if place.PlaceIndex? && cur.Arr? && place.i < |cur.elems| && v.Scalar? then Arr(cur.elems[place.i := v.n]) else v
  }

  lemma StorePuts(fr: Frame, place: Place, v: Value)
    requires Store(fr, place, v).Some?
    ensures Lookup(fr, place.x).Some?
    ensures Store(fr, place, v).value == Put(fr, place.x, Stored(place, Lookup(fr, place.x).value, v))
    ensures place.PlaceIndex? ==>
              var cur := Lookup(fr, place.x).value; cur.Arr? && place.i < |cur.elems| && v.Scalar?
  {
  }

  /** The locals after `xs[i]` has been set to `vs[i]` for every `i`, from left to right. */
  function Bind(locals: map<Ident, Value>, xs: seq<Ident>, vs: seq<Value>): map<Ident, Value>
    requires |xs| == |vs|
    decreases |xs|
  {
    if xs == [] then locals else Bind(locals[xs[0] := vs[0]], xs[1..], vs[1..])
  }

  /** Matches arguments with parameters by position; a mismatch has no meaning. */
  function BindParams(params: seq<Param>, args: seq<ArgVal>, reg: Registry): Option<Frame> {
    if params == [] && args == [] then Some(Frame(map[], map[], {}))
    else if params == [] || args == [] then None
    else
      var rest := BindParams(params[1..], args[1..], reg);
      if rest.None? then None
      else match (params[0], args[0])
        case (ByValue(x, _), PassValue(v)) => Some(rest.value.(locals := rest.value.locals[x := v]))
        case (ByMutRef(x, ty), PassRef(v)) =>
          if HasType(v, ty, reg) then Some(rest.value.(refs := rest.value.refs[x := v])) else None
        case _ => None
  }

  function FindFn(fns: seq<Fn>, f: Ident): Option<Fn> {
    if fns == [] then None
    else if fns[0].name == f then Some(fns[0])
    else FindFn(fns[1..], f)
  }

  /** The values of the variables `xs`, if all of them have one. */
  function Select(env: map<Ident, Value>, xs: seq<Ident>): (r: Option<seq<Value>>)
    ensures r.Some? <==> forall x :: x in xs ==> x in env
    ensures r.Some? ==> |r.value| == |xs| && forall i :: 0 <= i < |xs| ==> r.value[i] == env[xs[i]]
  {
    if forall x :: x in xs ==> x in env
    then Some(seq(|xs|, i requires 0 <= i < |xs| && xs[i] in env => env[xs[i]]))
    else None
  }

  function ExecStmts(pr: Program, prim: Prim, depth: nat, body: seq<Stmt>, fr: Frame): Option<Frame>
    decreases depth, 0, |body|
  {
    if body == [] then Some(fr)
    else
      var fr' := ExecStmt(pr, prim, depth, body[0], fr);
      if fr'.Some? then ExecStmts(pr, prim, depth, body[1..], fr'.value) else None
  }

  function ExecStmt(pr: Program, prim: Prim, depth: nat, s: Stmt, fr: Frame): Option<Frame>
    decreases depth, 0, 0
  {
    match s
    case Let(x, e) =>
      var v := EvalExpr(prim, e, fr);
      if v.Some? then Some(fr.(locals := fr.locals[x := v.value], frozen := fr.frozen - {x})) else None
    case Assign(place, e) =>
      var v := EvalExpr(prim, e, fr);
      if v.Some? then Store(fr, place, v.value) else None
    case Call(f, args) =>
      var vals := EvalArgs(prim, args, fr);
      if vals.None? || !Distinct(Targets(args)) || depth == 0 then None
      else
        var o := EvalFn(pr, prim, depth - 1, f, vals.value);
        if o.Some? && |o.value.outs| == |Targets(args)|
        then Some(fr.(locals := Bind(fr.locals, Targets(args), o.value.outs))) else None
    case LetTuple(pat, f, es) =>
      var vs := EvalExprs(prim, es, fr);
      if vs.None? || depth == 0 then None
      else
        var o := EvalFn(pr, prim, depth - 1, f, ByValues(vs.value));
        if o.Some? && |o.value.ret| == |pat|
        then Some(fr.(locals := Bind(fr.locals, pat, o.value.ret), frozen := fr.frozen + Elements(pat))) else None
  }

  function ByValues(vs: seq<Value>): (r: seq<ArgVal>)
    ensures |r| == |vs| && forall i :: 0 <= i < |vs| ==> r[i] == PassValue(vs[i])
  {
    seq(|vs|, i requires 0 <= i < |vs| => PassValue(vs[i]))
  }

  /** A call of the function named `f`. */
  function EvalFn(pr: Program, prim: Prim, depth: nat, f: Ident, args: seq<ArgVal>): Option<Outcome>
    decreases depth, 2, 0
  {
    var fn := FindFn(pr.fns, f);
    if fn.None? then None else RunFn(pr, prim, depth, fn.value, args)
  }

  /** A run of `fn`, which may call the functions of `pr`. */
  function RunFn(pr: Program, prim: Prim, depth: nat, fn: Fn, args: seq<ArgVal>): Option<Outcome>
    decreases depth, 1, 0
  {
    var fr := BindParams(fn.params, args, pr.reg);
    if fr.None? then None
    else
      var end := ExecStmts(pr, prim, depth, fn.body, fr.value);
      if end.None? then None
      else
        var outs := Select(end.value.refs, OutNames(fn.params));
        var ret := Select(end.value.locals, fn.result);
        if outs.Some? && ret.Some? then Some(Outcome(outs.value, ret.value)) else None
  }

  // ----- the depth does not matter -----

  lemma {:induction false} StmtDeeper(pr: Program, prim: Prim, depth: nat, more: nat, s: Stmt, fr: Frame)
    requires depth <= more && ExecStmt(pr, prim, depth, s, fr).Some?
    ensures ExecStmt(pr, prim, more, s, fr) == ExecStmt(pr, prim, depth, s, fr)
    decreases depth, 0, 0
  {
    hide EvalArgs, EvalExprs, Store, Bind;
    match s {
      case Call(f, args) =>
        FnDeeper(pr, prim, depth - 1, more - 1, f, EvalArgs(prim, args, fr).value);
      case LetTuple(pat, f, es) =>
        FnDeeper(pr, prim, depth - 1, more - 1, f, ByValues(EvalExprs(prim, es, fr).value));
      case _ =>
    }
  }

  lemma {:induction false} StmtsDeeper(pr: Program, prim: Prim, depth: nat, more: nat, body: seq<Stmt>, fr: Frame)
    requires depth <= more && ExecStmts(pr, prim, depth, body, fr).Some?
    ensures ExecStmts(pr, prim, more, body, fr) == ExecStmts(pr, prim, depth, body, fr)
    decreases depth, 0, |body|
  {
    if body != [] {
      StmtDeeper(pr, prim, depth, more, body[0], fr);
      StmtsDeeper(pr, prim, depth, more, body[1..], ExecStmt(pr, prim, depth, body[0], fr).value);
    }
  }

  /** A call that has a meaning at some depth has the same meaning at every larger depth. */
  lemma {:induction false} FnDeeper(pr: Program, prim: Prim, depth: nat, more: nat, f: Ident, args: seq<ArgVal>)
    requires depth <= more && EvalFn(pr, prim, depth, f, args).Some?
    ensures EvalFn(pr, prim, more, f, args) == EvalFn(pr, prim, depth, f, args)
    decreases depth, 2, 0
  {
    hide BindParams, Select;
    var fn := FindFn(pr.fns, f).value;
    StmtsDeeper(pr, prim, depth, more, fn.body, BindParams(fn.params, args, pr.reg).value);
  }

  /** The call returns `o`: it does so at some depth, and hence at every larger one. */
  ghost predicate Means(pr: Program, prim: Prim, f: Ident, args: seq<ArgVal>, o: Outcome) {
    exists depth: nat :: EvalFn(pr, prim, depth, f, args) == Some(o)
  }

  /** A call has at most one meaning. */
  lemma MeansOne(pr: Program, prim: Prim, f: Ident, args: seq<ArgVal>, o: Outcome, o': Outcome)
    requires Means(pr, prim, f, args, o) && Means(pr, prim, f, args, o')
    ensures o == o'
  {
    var d: nat :| EvalFn(pr, prim, d, f, args) == Some(o);
    var d': nat :| EvalFn(pr, prim, d', f, args) == Some(o');
    FnDeeper(pr, prim, d, d + d', f, args);
    FnDeeper(pr, prim, d', d + d', f, args);
  }
}
