/** Types shared by the models: bytes, optional values and a few sequence helpers. */
module Common {

  /** A `u8`. Bit masks over bytes are written with `/` and `%` in the models. */
  type byte = x: int | 0 <= x < 256

  datatype Option<+T> = None | Some(value: T)

  datatype Result<+T, +E> = Ok(value: T) | Err(error: E)

  /** `n` copies of `x`. */
  function Repeat<T>(x: T, n: nat): (s: seq<T>)
    ensures |s| == n
    ensures forall i :: 0 <= i < n ==> s[i] == x
  {
    seq(n, _ => x)
  }

  function Zeros(n: nat): (s: seq<byte>)
    ensures |s| == n
    ensures forall i :: 0 <= i < n ==> s[i] == 0
  {
    Repeat(0, n)
  }

  lemma ZerosJoin(a: nat, b: nat)
    ensures Zeros(a) + Zeros(b) == Zeros(a + b)
  {
  }

  function Pow2(n: nat): (p: nat)
    ensures p > 0
  {
    if n == 0 then 1 else 2 * Pow2(n - 1)
  }

  predicate Distinct<T(==)>(s: seq<T>) {
    forall i, j :: 0 <= i < j < |s| ==> s[i] != s[j]
  }

  function Elements<T>(s: seq<T>): set<T> {
    set i | 0 <= i < |s| :: s[i]
  }

  /** The concatenation of a list of sequences. */
  function Concat<T>(parts: seq<seq<T>>): seq<T> {
    if parts == [] then [] else parts[0] + Concat(parts[1..])
  }

  lemma {:induction false} ConcatAppend<T>(a: seq<seq<T>>, b: seq<seq<T>>)
    ensures Concat(a + b) == Concat(a) + Concat(b)
  {
    if a == [] {
      assert a + b == b;
      assert [] + Concat(b) == Concat(b);
    } else {
      ConcatAppend(a[1..], b);
      assert (a + b)[0] == a[0] && (a + b)[1..] == a[1..] + b;
      Assoc(a[0], Concat(a[1..]), Concat(b));
    }
  }

  lemma Assoc<T>(a: seq<T>, b: seq<T>, c: seq<T>)
    ensures (a + b) + c == a + (b + c)
  {
  }

  // ----- what a loop has done so far, in front of what is left -----

  function PutBefore<T, S>(done: seq<T>, rest: (seq<T>, S)): (seq<T>, S) {
    (done + rest.0, rest.1)
  }

  lemma BeforeNothing<T, S>(rest: (seq<T>, S))
    ensures PutBefore([], rest) == rest
  {
    assert [] + rest.0 == rest.0;
  }

  lemma BeforeNone<T, S>(done: seq<T>, end: S)
    ensures PutBefore(done, ([], end)) == (done, end)
  {
    assert done + [] == done;
  }

  lemma BeforeTwice<T, S>(done: seq<T>, next: T, rest: (seq<T>, S))
    ensures PutBefore(done, PutBefore([next], rest)) == PutBefore(done + [next], rest)
  {
    Assoc(done, [next], rest.0);
  }

  function Prepend<T, E>(done: seq<T>, rest: Result<seq<T>, E>): Result<seq<T>, E> {
    if rest.Err? then rest else Ok(done + rest.value)
  }

  lemma PrependNothing<T, E>(rest: Result<seq<T>, E>)
    ensures Prepend([], rest) == rest
  {
    assert rest.Ok? ==> [] + rest.value == rest.value;
  }

  lemma PrependLast<T, E>(done: seq<T>)
    ensures Prepend<T, E>(done, Ok([])) == Ok(done)
  {
    assert done + [] == done;
  }

  lemma PrependTwice<T, E>(done: seq<T>, next: seq<T>, rest: Result<seq<T>, E>)
    ensures Prepend(done, Prepend(next, rest)) == Prepend(done + next, rest)
  {
    if rest.Ok? {
      Assoc(done, next, rest.value);
    }
  }

  lemma PrependError<T, E>(done: seq<T>, why: E)
    ensures Prepend<T, E>(done, Err(why)) == Err(why)
  {
  }

  // ----- concatenations -----

  lemma ConcatCons<T>(x: seq<T>, parts: seq<seq<T>>)
    ensures Concat([x] + parts) == x + Concat(parts)
  {
    assert ([x] + parts)[1..] == parts;
  }

  lemma ConcatNone<T>()
    ensures Concat<T>([]) == []
  {
  }

  lemma ConcatOne<T>(x: seq<T>)
    ensures Concat([x]) == x
  {
    assert [x][1..] == [];
  }

  /** `copy_from_slice`: overwrites `dst` from `at` on. */
  method CopyInto(dst: array<byte>, at: nat, src: seq<byte>)
    requires at + |src| <= dst.Length
    modifies dst
    ensures dst[..] == old(dst[..at]) + src + old(dst[at + |src|..])
  {
    forall i | 0 <= i < |src| {
      dst[at + i] := src[i];
    }
  }
}
