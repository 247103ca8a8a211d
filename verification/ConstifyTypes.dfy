/** Type aliases and the layout of types. */
module ConstifyTypes {
  import opened Common
  import opened ConstifySyntax

  /** The integer types of the language, `u8` to `usize` and `i8` to `isize`. */
  predicate IsIntegerName(x: Ident) {
    && |x| > 1 && (x[0] == 117 || x[0] == 105)
    && x[1..] in [[56], [49, 54], [51, 50], [54, 52], [49, 50, 56], [115, 105, 122, 101]]
  }

  /** "u8", "u16", "u32", "u64", "u128", "usize", and the same with "i". */
  lemma IntegerNames(x: Ident)
    ensures IsIntegerName(x) <==>
              || x in {[117, 56], [117, 49, 54], [117, 51, 50], [117, 54, 52], [117, 49, 50, 56]}
              || x in {[105, 56], [105, 49, 54], [105, 51, 50], [105, 54, 52], [105, 49, 50, 56]}
              || x in {[117, 115, 105, 122, 101], [105, 115, 105, 122, 101]}
  {
    if |x| > 1 {
      var c, rest := x[0], x[1..];
      assert x == [c] + rest;
      assert forall t: Ident :: x == [c] + t <==> rest == t;
      assert [c] + [56] == [c, 56] && [c] + [49, 54] == [c, 49, 54] && [c] + [51, 50] == [c, 51, 50];
      assert [c] + [54, 52] == [c, 54, 52] && [c] + [49, 50, 56] == [c, 49, 50, 56];
      assert [c] + [115, 105, 122, 101] == [c, 115, 105, 122, 101];
    }
  }

  predicate IsAlias(ty: Type, reg: Registry) {
    ty.Path? && ty.name in reg
  }

  /** The type behind all aliases; none if the aliases go in a circle. `seen` holds the aliases that
      have been expanded already. */
  function Resolve(ty: Type, reg: Registry, seen: set<Ident>): Option<Type>
    decreases reg.Keys - seen
  {
    if !IsAlias(ty, reg) then Some(ty)
    else if ty.name in seen then None
    else Resolve(reg[ty.name], reg, seen + {ty.name})
  }

  predicate IsInteger(ty: Type, reg: Registry) {
    var t := Resolve(ty, reg, {});
    t.Some? && t.value.Path? && IsIntegerName(t.value.name)
  }

  datatype Shape = ScalarShape | ArrayShape(len: nat)

  /** The layout of integers and of arrays of integers; other types have no values here. */
  function ShapeOf(ty: Type, reg: Registry): Option<Shape> {
    match Resolve(ty, reg, {})
    case Some(Path(x)) => if IsIntegerName(x) then Some(ScalarShape) else None
    case Some(Array(elem, n)) => if IsInteger(elem, reg) then Some(ArrayShape(n)) else None
    case _ => None
  }

  // ----- aliases one by one -----

  /** The type after `k` alias expansions. */
  function Follow(ty: Type, reg: Registry, k: nat): Type
    decreases k
  {
    if k == 0 || !IsAlias(ty, reg) then ty else Follow(reg[ty.name], reg, k - 1)
  }

  /** The chain of aliases from `ty` ends in `t`. */
  ghost predicate EndsIn(ty: Type, reg: Registry, t: Type) {
    !IsAlias(t, reg) && exists k: nat :: Follow(ty, reg, k) == t
  }

  ghost predicate NeverEnds(ty: Type, reg: Registry) {
    forall k: nat :: IsAlias(Follow(ty, reg, k), reg)
  }

  ghost predicate Reaches(ty: Type, target: Type, reg: Registry) {
    exists k: nat :: k > 0 && Follow(ty, reg, k) == target
  }

  lemma {:induction false} FollowAdd(ty: Type, reg: Registry, j: nat, k: nat)
    ensures Follow(Follow(ty, reg, j), reg, k) == Follow(ty, reg, j + k)
    decreases j
  {
    if j > 0 && IsAlias(ty, reg) {
      FollowAdd(reg[ty.name], reg, j - 1, k);
    }
  }

  lemma {:induction false} CycleGoesOn(ty: Type, reg: Registry, period: nat, j: nat)
    requires period > 0 && Follow(ty, reg, period) == ty && IsAlias(ty, reg)
    ensures IsAlias(Follow(ty, reg, j), reg)
    decreases j
  {
    if j >= period {
      FollowAdd(ty, reg, period, j - period);
      CycleGoesOn(ty, reg, period, j - period);
    } else {
      FollowAdd(ty, reg, j, period - j);
    }
  }

  lemma EndsInOne(ty: Type, reg: Registry, t: Type, t': Type)
    requires EndsIn(ty, reg, t) && EndsIn(ty, reg, t')
    ensures t == t'
  {
    var k: nat :| Follow(ty, reg, k) == t;
    var k': nat :| Follow(ty, reg, k') == t';
    if k <= k' {
      FollowAdd(ty, reg, k, k' - k);
    } else {
      FollowAdd(ty, reg, k', k - k');
    }
  }

  lemma SeenReachNext(ty: Type, reg: Registry, y: Ident)
    requires IsAlias(ty, reg) && (y == ty.name || Reaches(Path(y), ty, reg))
    ensures Reaches(Path(y), reg[ty.name], reg)
  {
    var next := reg[ty.name];
    assert Follow(ty, reg, 1) == Follow(next, reg, 0) == next;
    if y != ty.name {
      var k: nat :| k > 0 && Follow(Path(y), reg, k) == ty;
      FollowAdd(Path(y), reg, k, 1);
    }
  }

  lemma {:induction false} ResolveFollows(ty: Type, reg: Registry, seen: set<Ident>)
    requires forall y :: y in seen ==> Reaches(Path(y), ty, reg)
    ensures match Resolve(ty, reg, seen)
            case None => NeverEnds(ty, reg)
            case Some(t) => EndsIn(ty, reg, t)
    decreases reg.Keys - seen
  {
    if !IsAlias(ty, reg) {
      assert Follow(ty, reg, 0) == ty;
    } else if ty.name in seen {
      var period: nat :| period > 0 && Follow(ty, reg, period) == ty;
      forall k: nat
        ensures IsAlias(Follow(ty, reg, k), reg)
      {
        CycleGoesOn(ty, reg, period, k);
      }
    } else {
      var next := reg[ty.name];
      forall y | y in seen + {ty.name}
        ensures Reaches(Path(y), next, reg)
      {
        SeenReachNext(ty, reg, y);
      }
      ResolveFollows(next, reg, seen + {ty.name});
      forall k: nat
        ensures Follow(ty, reg, k) == if k == 0 then ty else Follow(next, reg, k - 1)
      {
      }
      var t := Resolve(ty, reg, seen);
      if t.Some? {
        var k: nat :| Follow(next, reg, k) == t.value;
        assert Follow(ty, reg, k + 1) == t.value;
      }
    }
  }

  /** The resolved type is the one at the end of the chain of aliases. */
  lemma ResolveEnds(ty: Type, reg: Registry, t: Type)
    ensures Resolve(ty, reg, {}) == Some(t) <==> EndsIn(ty, reg, t)
  {
    ResolveFollows(ty, reg, {});
    var r := Resolve(ty, reg, {});
    if EndsIn(ty, reg, t) && r.Some? {
      EndsInOne(ty, reg, t, r.value);
    }
  }
}
