/** Exactly which files the tool rewrites without a panic. */
module ConstifyAccepts {
  import opened OrderedMap
  import opened ConstifySyntax
  import opened ConstifyRewrite
  import opened ConstifyDefaults
  import opened ConstifyPreservation
  import opened ConstifyFile

  /** The function has outputs, with different names and types that have a default, and every `&mut`
      argument in its body is a plain variable. */
  ghost predicate FnAccepted(fn: Fn, reg: Registry) {
    && (exists p :: p in fn.params && p.ByMutRef?)
    && DistinctOutputs(fn.params)
    && (forall p :: p in fn.params && p.ByMutRef? ==> EndsInPrimitive(p.ty, reg) || EndsInArray(p.ty, reg))
    && (forall i :: 0 <= i < |fn.body| ==> PlainTargets(fn.body[i]))
  }

  ghost predicate DistinctOutputs(params: seq<Param>) {
    forall i, j :: 0 <= i < j < |params| && params[i].ByMutRef? && params[j].ByMutRef? ==>
      params[i].name != params[j].name
  }

  ghost predicate PlainTargets(s: Stmt) {
    s.Call? ==> forall a :: a in s.args && a.MutRef? ==> a.target.PlaceVar?
  }

  /** Aliases have different names, and a function uses only those before it. */
  ghost predicate FileAccepted(items: seq<Item>) {
    forall i :: 0 <= i < |items| ==> NextAccepted(items, i)
  }

  ghost predicate NextAccepted(items: seq<Item>, i: nat)
    requires i < |items|
  {
    match items[i]
    case TypeItem(x, _) => forall j :: 0 <= j < i && items[j].TypeItem? ==> items[j].name != x
    case FnItem(fn) => FnAccepted(fn, RegistryOf(items[..i], map[]))
    case OtherItem => true
  }

  // ----- one function -----

  lemma {:induction false} OutputsOk(params: seq<Param>, from: seq<(Key, Type)>)
    ensures OutputsOf(params, from).Ok? <==>
              DistinctOutputs(params) && forall p :: p in params && p.ByMutRef? ==> Get(from, p.name).None?
  {
    if params != [] {
      var p, rest := params[0], params[1..];
      assert forall q :: q in params <==> q == p || q in rest;
      FirstOutput(params);
      hide DistinctOutputs;
      if p.ByValue? {
        OutputsOk(rest, from);
      } else {
        var more := Insert(from, p.name, p.ty);
        OutputsOk(rest, more);
        forall q | q in rest
          ensures Get(more, q.name).None? <==> q.name != p.name && Get(from, q.name).None?
        {
          InsertGet(from, p.name, p.ty, q.name);
        }
      }
    }
  }

  lemma FirstOutput(params: seq<Param>)
    requires params != []
    ensures DistinctOutputs(params) <==>
              && DistinctOutputs(params[1..])
              && (params[0].ByMutRef? ==> forall q :: q in params[1..] && q.ByMutRef? ==> q.name != params[0].name)
  {
    var rest := params[1..];
    if DistinctOutputs(params) {
      forall i, j | 0 <= i < j < |rest| && rest[i].ByMutRef? && rest[j].ByMutRef?
        ensures rest[i].name != rest[j].name
      {
        assert params[i + 1] == rest[i] && params[j + 1] == rest[j];
      }
      forall q | params[0].ByMutRef? && q in rest && q.ByMutRef?
        ensures q.name != params[0].name
      {
        var j :| 0 <= j < |rest| && rest[j] == q;
        assert params[j + 1] == q;
      }
    }
    if && DistinctOutputs(rest)
       && (params[0].ByMutRef? ==> forall q :: q in rest && q.ByMutRef? ==> q.name != params[0].name) {
      forall i, j | 0 <= i < j < |params| && params[i].ByMutRef? && params[j].ByMutRef?
        ensures params[i].name != params[j].name
      {
        assert params[j] == rest[j - 1] && rest[j - 1] in rest;
        if i > 0 {
          assert params[i] == rest[i - 1];
        }
      }
    }
  }

  lemma {:induction false} LetsOk(outputs: seq<(Key, Type)>, reg: Registry)
    ensures LetBindings(outputs, reg).Ok? <==> forall o :: o in outputs ==> DefaultFor(o.1, reg, {}).Ok?
  {
    hide DefaultFor;
    if outputs != [] {
      LetsOk(outputs[1..], reg);
      assert forall o :: o in outputs <==> o == outputs[0] || o in outputs[1..];
    }
  }

  lemma {:induction false} StmtsOk(body: seq<Stmt>)
    ensures RewriteStmts(body).Ok? <==> forall i :: 0 <= i < |body| ==> PlainTargets(body[i])
  {
    if body != [] {
      StmtsOk(body[1..]);
      assert RewriteStmt(body[0]).Ok? <==> PlainTargets(body[0]);
      hide RewriteStmt, PlainTargets;
      assert forall i :: 0 < i < |body| ==> body[i] == body[1..][i - 1];
      assert forall i :: 0 <= i < |body[1..]| ==> body[1..][i] == body[i + 1];
    }
  }

  /** The outputs of a signature are its `&mut` parameters. */
  lemma OutputsAre(params: seq<Param>, o: (Key, Type))
    requires OutputsOf(params, []).Ok?
    ensures o in OutputsOf(params, []).value <==> exists p :: p in params && p.ByMutRef? && p.name == o.0 && p.ty == o.1
  {
    var outputs := OutputsOf(params, []).value;
    OutputsOfIncreasing(params, []);
    OutputsGet(params, [], o.0);
    OutputKeys(params, o.0);
    OutNamesAre(params, o.0);
    hide OutputsOf, OutNames;
    if o in outputs {
      var i :| 0 <= i < |outputs| && outputs[i] == o;
      GetEntry(outputs, i);
      assert Keys(outputs)[i] in Keys(outputs);
    }
    if Get(outputs, o.0).Some? {
      GetIn(outputs, o.0);
    }
  }

  lemma DefaultsOk(params: seq<Param>, reg: Registry)
    requires OutputsOf(params, []).Ok?
    ensures LetBindings(OutputsOf(params, []).value, reg).Ok? <==>
              forall p :: p in params && p.ByMutRef? ==> EndsInPrimitive(p.ty, reg) || EndsInArray(p.ty, reg)
  {
    var outputs := OutputsOf(params, []).value;
    hide OutputsOf, LetBindings, DefaultFor, EndsInPrimitive, EndsInArray;
    LetsOk(outputs, reg);
    forall ty
      ensures DefaultFor(ty, reg, {}).Ok? <==> EndsInPrimitive(ty, reg) || EndsInArray(ty, reg)
    {
      DefaultForIff(ty, reg, 0);
    }
    forall o: (Key, Type)
      ensures o in outputs <==> exists p :: p in params && p.ByMutRef? && p.name == o.0 && p.ty == o.1
    {
      OutputsAre(params, o);
    }
    forall p | p in params && p.ByMutRef?
      ensures (p.name, p.ty) in outputs
    {
    }
  }

  lemma NoOutputsIff(params: seq<Param>)
    requires OutputsOf(params, []).Ok?
    ensures OutputsOf(params, []).value != [] <==> exists p :: p in params && p.ByMutRef?
  {
    var outputs := OutputsOf(params, []).value;
    hide OutputsOf;
    if outputs != [] {
      OutputsAre(params, outputs[0]);
    }
    if exists p :: p in params && p.ByMutRef? {
      var p :| p in params && p.ByMutRef?;
      OutputsAre(params, (p.name, p.ty));
    }
  }

  lemma FnOk(fn: Fn, reg: Registry)
    ensures RewriteFn(fn, reg).Ok? <==> FnAccepted(fn, reg)
  {
    OutputsOk(fn.params, []);
    StmtsOk(fn.body);
    if OutputsOf(fn.params, []).Ok? {
      NoOutputsIff(fn.params);
      DefaultsOk(fn.params, reg);
    }
    hide OutputsOf, LetBindings, RewriteStmts, DistinctOutputs, PlainTargets, EndsInPrimitive, EndsInArray;
  }

  // ----- the whole file -----

  ghost predicate ItemAccepted(items: seq<Item>, i: nat, reg: Registry)
    requires i < |items|
  {
    match items[i]
    case TypeItem(x, _) => x !in RegistryOf(items[..i], reg)
    case FnItem(fn) => FnAccepted(fn, RegistryOf(items[..i], reg))
    case OtherItem => true
  }

  lemma {:induction false} ItemsOk(items: seq<Item>, reg: Registry)
    ensures RewriteItems(items, reg).Ok? <==> forall i :: 0 <= i < |items| ==> ItemAccepted(items, i, reg)
    decreases |items|
  {
    hide FnAccepted, RewriteFn;
    if items != [] {
      var rest := items[1..];
      var next := if items[0].TypeItem? then reg[items[0].name := items[0].ty] else reg;
      ItemsOk(rest, next);
      if items[0].FnItem? {
        FnOk(items[0].fn, reg);
      }
      assert items[..0] == [] && RegistryOf(items[..0], reg) == reg;
      assert RewriteItems(items, reg).Ok? <==> ItemAccepted(items, 0, reg) && RewriteItems(rest, next).Ok?;
      forall i | 0 < i < |items|
        ensures ItemAccepted(items, i, reg) <==> ItemAccepted(rest, i - 1, next)
      {
        assert items[..i][1..] == rest[..i - 1];
      }
      assert forall i :: 0 <= i < |rest| ==> ItemAccepted(rest, i, next) == ItemAccepted(items, i + 1, reg);
    }
  }

  /** The registry holds the aliases of the file. */
  lemma {:induction false} RegistryKeys(items: seq<Item>, reg: Registry, x: Ident)
    ensures x in RegistryOf(items, reg) <==>
              x in reg || exists j :: 0 <= j < |items| && items[j].TypeItem? && items[j].name == x
    decreases |items|
  {
    if items != [] {
      var next := if items[0].TypeItem? then reg[items[0].name := items[0].ty] else reg;
      RegistryKeys(items[1..], next, x);
      assert forall j :: 0 < j < |items| ==> items[j] == items[1..][j - 1];
      assert forall j :: 0 <= j < |items[1..]| ==> items[1..][j] == items[j + 1];
    }
  }

  /** The tool rewrites a file if and only if its aliases have different names, and every function has
      outputs with different names and types that have a default, by the aliases before it, and passes
      only plain variables as `&mut` arguments. */
  lemma RewriteSucceedsIff(items: seq<Item>)
    ensures RewriteItems(items, map[]).Ok? <==> FileAccepted(items)
  {
    hide RewriteItems, FnAccepted, RegistryOf;
    ItemsOk(items, map[]);
    forall i | 0 <= i < |items|
      ensures ItemAccepted(items, i, map[]) <==> NextAccepted(items, i)
    {
      if items[i].TypeItem? {
        RegistryKeys(items[..i], map[], items[i].name);
        assert forall j :: 0 <= j < i ==> items[..i][j] == items[j];
      }
    }
  }

  /** In an accepted file the registry is exactly the list of its aliases. */
  lemma {:induction false} RegistryValues(items: seq<Item>, reg: Registry, j: nat)
    requires RewriteItems(items, reg).Ok? && j < |items| && items[j].TypeItem?
    ensures items[j].name in RegistryOf(items, reg) && RegistryOf(items, reg)[items[j].name] == items[j].ty
    decreases |items|
  {
    hide RewriteFn;
    var next := if items[0].TypeItem? then reg[items[0].name := items[0].ty] else reg;
    if j == 0 {
      RegistryExtends(items[1..], next);
    } else {
      RegistryValues(items[1..], next, j - 1);
    }
  }
}
