/** The results about a whole file: what the tool needs of it and what it keeps. */
module ConstifyFile {
  import opened Common
  import opened OrderedMap
  import opened ConstifySyntax
  import opened ConstifySemantics
  import opened ConstifyRewrite
  import opened ConstifyPreservation

  function FnsOf(items: seq<Item>): seq<Fn> {
    if items == [] then []
    else (if items[0].FnItem? then [items[0].fn] else []) + FnsOf(items[1..])
  }

  function RegistryOf(items: seq<Item>, reg: Registry): Registry
    decreases |items|
  {
    if items == [] then reg
    else RegistryOf(items[1..], if items[0].TypeItem? then reg[items[0].name := items[0].ty] else reg)
  }

  function ProgramOf(items: seq<Item>): Program {
    Program(RegistryOf(items, map[]), FnsOf(items))
  }

  // ----- aliases declared later do not change a default -----

  ghost predicate Extends(reg: Registry, more: Registry) {
    forall x :: x in reg ==> x in more && more[x] == reg[x]
  }

  lemma {:induction false} DefaultStable(ty: Type, reg: Registry, more: Registry, seen: set<Ident>)
    requires Extends(reg, more) && more.Keys !! PRIMITIVES
    requires DefaultFor(ty, reg, seen).Ok?
    ensures DefaultFor(ty, more, seen) == DefaultFor(ty, reg, seen)
    decreases reg.Keys - seen
  {
    if ty.Path? && ty.name in reg {
      DefaultStable(reg[ty.name], reg, more, seen + {ty.name});
    }
  }

  lemma {:induction false} LetsStable(outputs: seq<(Key, Type)>, reg: Registry, more: Registry)
    requires Extends(reg, more) && more.Keys !! PRIMITIVES
    requires LetBindings(outputs, reg).Ok?
    ensures LetBindings(outputs, more) == LetBindings(outputs, reg)
  {
    if outputs != [] {
      DefaultStable(outputs[0].1, reg, more, {});
      LetsStable(outputs[1..], reg, more);
    }
  }

  lemma {:induction false} RegistryExtends(items: seq<Item>, reg: Registry)
    requires RewriteItems(items, reg).Ok?
    ensures Extends(reg, RegistryOf(items, reg))
    decreases |items|
  {
    if items != [] {
      RegistryExtends(items[1..], if items[0].TypeItem? then reg[items[0].name := items[0].ty] else reg);
    }
  }

  lemma {:induction false} ItemsRewritten(items: seq<Item>, reg: Registry)
    requires RewriteItems(items, reg).Ok? && RegistryOf(items, reg).Keys !! PRIMITIVES
    ensures RewrittenFns(FnsOf(items), FnsOf(RewriteItems(items, reg).value), RegistryOf(items, reg))
    ensures RegistryOf(RewriteItems(items, reg).value, reg) == RegistryOf(items, reg)
    decreases |items|
  {
    if items != [] {
      var items' := RewriteItems(items, reg).value;
      var next := if items[0].TypeItem? then reg[items[0].name := items[0].ty] else reg;
      var full := RegistryOf(items, reg);
      ItemsRewritten(items[1..], next);
      assert items'[1..] == RewriteItems(items[1..], next).value;
      var fns, fns' := FnsOf(items), FnsOf(items');
      if items[0].FnItem? {
        RegistryExtends(items, reg);
        LetsStable(OutputsOf(items[0].fn.params, []).value, reg, full);
        assert fns[1..] == FnsOf(items[1..]) && fns'[1..] == FnsOf(items'[1..]);
        forall i | 0 <= i < |fns|
          ensures RewriteFn(fns[i], full) == Ok(fns'[i])
        {
          if i > 0 {
            assert fns[i] == fns[1..][i - 1] && fns'[i] == fns'[1..][i - 1];
          }
        }
      } else {
        assert fns == FnsOf(items[1..]) && fns' == FnsOf(items'[1..]);
      }
    }
  }

  /** Meaning preservation. If every function writes its outputs fully before it reads them,
      redeclares none of them, does not assign again what a call has filled, and calls only functions
      whose outputs are in order, then each call of a rewritten function returns, in the order of the names,
      exactly the values that the original call leaves behind its `&mut` arguments. */
  lemma MeaningPreserved(items: seq<Item>, items': seq<Item>, prim: Prim, f: Ident, args: seq<ArgVal>, o: Outcome)
    returns (o': Outcome)
    requires RewriteItems(items, map[]) == Ok(items')
    requires GoodProgram(ProgramOf(items))
    requires Means(ProgramOf(items), prim, f, args, o)
    ensures Means(ProgramOf(items'), prim, f, ByValues(ValuesOf(args)), o')
    ensures FindFn(FnsOf(items), f).Some?
    ensures var params := FindFn(FnsOf(items), f).value.params;
            && o'.outs == [] && SameOutputs(params, o.outs, o'.ret)
            && (Aligned(params, ProgramOf(items).reg) ==> o'.ret == o.outs)
  {
    hide RewriteItems, GoodFn, EvalFn, SameOutputs, Aligned;
    ItemsRewritten(items, map[]);
    var depth: nat :| EvalFn(ProgramOf(items), prim, depth, f, args) == Some(o);
    FnPreserved(ProgramOf(items), ProgramOf(items'), prim, depth, f, args);
    o' := EvalFn(ProgramOf(items'), prim, depth, f, ByValues(ValuesOf(args))).value;
  }

  // ----- the order of the tuples -----

  lemma {:induction false} LetBindingsAre(outputs: seq<(Key, Type)>, reg: Registry)
    requires LetBindings(outputs, reg).Ok?
    ensures |LetBindings(outputs, reg).value| == |outputs|
    ensures forall i :: 0 <= i < |outputs| ==>
              && DefaultFor(outputs[i].1, reg, {}).Ok?
              && LetBindings(outputs, reg).value[i] == Let(outputs[i].0, DefaultFor(outputs[i].1, reg, {}).value)
  {
    if outputs != [] {
      LetBindingsAre(outputs[1..], reg);
    }
  }

  /** The inserted bindings, the return type and the returned tuple all list the outputs in one
      order, by increasing name, and each entry belongs to the parameter of that name. */
  lemma CommonOrder(fn: Fn, reg: Registry, fn': Fn, i: nat) returns (p: Param)
    requires RewriteFn(fn, reg) == Ok(fn') && i < |fn'.result|
    ensures Increasing(fn'.result)
    ensures forall x :: x in fn'.result <==> x in OutNames(fn.params)
    ensures |fn'.ret| == |fn'.result| <= |fn'.body|
    ensures fn'.isConst && fn'.name == fn.name && fn'.params == Inputs(fn.params)
    ensures p in fn.params && p.ByMutRef? && p.name == fn'.result[i]
    ensures fn'.ret[i] == p.ty
    ensures DefaultFor(p.ty, reg, {}).Ok? && fn'.body[i] == Let(p.name, DefaultFor(p.ty, reg, {}).value)
  {
    OutputsOfIncreasing(fn.params, []);
    var outputs: Map<Type> := OutputsOf(fn.params, []).value;
    forall x
      ensures x in fn'.result <==> x in OutNames(fn.params)
    {
      OutputKeys(fn.params, x);
    }
    var x := fn'.result[i];
    assert x in fn'.result;
    OutNamesAre(fn.params, x);
    p :| p in fn.params && p.ByMutRef? && p.name == x;
    OutputsGet(fn.params, [], x);
    GetEntry(outputs, i);
    LetBindingsAre(outputs, reg);
  }
}
