/** `default_for`: when it answers, and when its answer is a value of the type. */
module ConstifyDefaults {
  import opened Common
  import opened ConstifySyntax
  import opened ConstifyTypes
  import opened ConstifyRewrite

  lemma {:induction false} DefaultResolves(ty: Type, reg: Registry, seen: set<Ident>)
    ensures DefaultFor(ty, reg, seen) == match Resolve(ty, reg, seen)
              case None => Err(AliasCycle)
              case Some(Array(_, n)) => Ok(Fill(0, n))
              case Some(Path(x)) => if x in PRIMITIVES then Ok(Lit(0)) else Err(UnsupportedType)
              case Some(OtherType) => Err(UnsupportedType)
    decreases reg.Keys - seen
  {
    if IsAlias(ty, reg) && ty.name !in seen {
      DefaultResolves(reg[ty.name], reg, seen + {ty.name});
    }
  }

  lemma PrimitivesAreIntegers(x: Ident)
    requires x in PRIMITIVES
    ensures IsIntegerName(x)
  {
    assert x[1..] in [[56], [51, 50], [54, 52]];
  }

  /** `default_for` returns exactly when the chain of aliases ends, and then answers for the type
      at its end; otherwise its recursion never ends. */
  lemma DefaultForTerminates(ty: Type, reg: Registry)
    ensures DefaultFor(ty, reg, {}) == Err(AliasCycle) <==> NeverEnds(ty, reg)
    ensures forall t :: EndsIn(ty, reg, t) ==> DefaultFor(ty, reg, {}) == DefaultFor(t, reg, {}) != Err(AliasCycle)
  {
    ResolveFollows(ty, reg, {});
    DefaultResolves(ty, reg, {});
    var r := Resolve(ty, reg, {});
    if r.Some? {
      var k: nat :| Follow(ty, reg, k) == r.value;
      assert !IsAlias(Follow(ty, reg, k), reg);
    }
    forall t | EndsIn(ty, reg, t)
      ensures DefaultFor(ty, reg, {}) == DefaultFor(t, reg, {}) != Err(AliasCycle)
    {
      ResolveEnds(ty, reg, t);
      DefaultResolves(t, reg, {});
    }
  }

  /** The chain of aliases ends in `u8`, `u32` or `u64`. */
  ghost predicate EndsInPrimitive(ty: Type, reg: Registry) {
    EndsIn(ty, reg, Path([117, 56])) || EndsIn(ty, reg, Path([117, 51, 50])) || EndsIn(ty, reg, Path([117, 54, 52]))
  }

  ghost predicate EndsInArray(ty: Type, reg: Registry) {
    exists elem, n :: EndsIn(ty, reg, Array(elem, n))
  }

  /** Exactly what `default_for` answers: 0 for the three integer types, zeros for an array of any
      type, and a panic for everything else. */
  lemma DefaultForIff(ty: Type, reg: Registry, n: nat)
    ensures DefaultFor(ty, reg, {}) == Ok(Lit(0)) <==> EndsInPrimitive(ty, reg)
    ensures DefaultFor(ty, reg, {}) == Ok(Fill(0, n)) <==> exists elem :: EndsIn(ty, reg, Array(elem, n))
    ensures DefaultFor(ty, reg, {}).Ok? <==> EndsInPrimitive(ty, reg) || EndsInArray(ty, reg)
  {
    DefaultResolves(ty, reg, {});
    var r := Resolve(ty, reg, {});
    forall t
      ensures r == Some(t) <==> EndsIn(ty, reg, t)
    {
      ResolveEnds(ty, reg, t);
    }
    if r.Some? && r.value.Array? {
      assert EndsIn(ty, reg, Array(r.value.elem, r.value.len));
    }
  }

  ghost predicate EndsInInteger(ty: Type, reg: Registry) {
    exists x :: IsIntegerName(x) && EndsIn(ty, reg, Path(x))
  }

  /** The typing rule for the two kinds of literals that `default_for` builds. */
  ghost predicate LiteralHasType(e: Expr, ty: Type, reg: Registry) {
    match e
    case Lit(_) => EndsInInteger(ty, reg)
    case Fill(_, n) => exists elem :: EndsIn(ty, reg, Array(elem, n)) && EndsInInteger(elem, reg)
    case _ => false
  }

  lemma IntegerIff(ty: Type, reg: Registry)
    ensures IsInteger(ty, reg) <==> EndsInInteger(ty, reg)
  {
    var t := Resolve(ty, reg, {});
    if IsInteger(ty, reg) {
      ResolveEnds(ty, reg, t.value);
      assert IsIntegerName(t.value.name) && EndsIn(ty, reg, Path(t.value.name));
    }
    if EndsInInteger(ty, reg) {
      var x :| IsIntegerName(x) && EndsIn(ty, reg, Path(x));
      ResolveEnds(ty, reg, Path(x));
    }
  }

  /** The default has the type if and only if the type is no array of anything but integers; these
      are the types with a layout. */
  lemma DefaultTypeChecks(ty: Type, reg: Registry)
    requires DefaultFor(ty, reg, {}).Ok?
    ensures LiteralHasType(DefaultFor(ty, reg, {}).value, ty, reg) <==>
              forall elem, n :: EndsIn(ty, reg, Array(elem, n)) ==> EndsInInteger(elem, reg)
    ensures LiteralHasType(DefaultFor(ty, reg, {}).value, ty, reg) <==> ShapeOf(ty, reg).Some?
  {
    hide IsIntegerName;
    DefaultResolves(ty, reg, {});
    var t := Resolve(ty, reg, {}).value;
    ResolveEnds(ty, reg, t);
    forall t' | EndsIn(ty, reg, t')
      ensures t' == t
    {
      EndsInOne(ty, reg, t, t');
    }
    if t.Array? {
      IntegerIff(t.elem, reg);
    } else {
      PrimitivesAreIntegers(t.name);
      IntegerIff(ty, reg);
    }
  }

  /** The value of the default of a type with a layout. */
  lemma DefaultHasShape(ty: Type, reg: Registry)
    requires DefaultFor(ty, reg, {}).Ok? && ShapeOf(ty, reg).Some?
    ensures DefaultFor(ty, reg, {}).value == match ShapeOf(ty, reg).value
              case ScalarShape => Lit(0)
              case ArrayShape(n) => Fill(0, n)
  {
    DefaultResolves(ty, reg, {});
  }

  /** An array of arrays gets an array of integers. */
  lemma NestedArrayDefault(reg: Registry)
    ensures var ty := Array(Array(Path([117, 54, 52]), 2), 3);
            DefaultFor(ty, reg, {}) == Ok(Fill(0, 3)) && !LiteralHasType(Fill(0, 3), ty, reg)
  {
    var inner := Array(Path([117, 54, 52]), 2);
    var ty := Array(inner, 3);
    DefaultTypeChecks(ty, reg);
    assert Resolve(inner, reg, {}) == Some(inner);
    assert ShapeOf(ty, reg).None?;
  }
}
