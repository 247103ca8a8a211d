/** `BTreeMap` with byte-string keys: the entries in iteration order, that is by strictly
    increasing key. Rust compares strings and byte slices byte by byte. */
module OrderedMap {
  import opened Common

  type Key = seq<byte>

  /** The lexicographic order of byte strings. */
  predicate Less(a: Key, b: Key)
    decreases |a|
  {
    b != [] && (a == [] || a[0] < b[0] || (a[0] == b[0] && Less(a[1..], b[1..])))
  }

  /** Two strings agree up to `i`, where the first one ends or has the smaller byte. */
  predicate LessAt(a: Key, b: Key, i: nat) {
    i <= |a| && i < |b| && a[..i] == b[..i] && (i == |a| || a[i] < b[i])
  }

  /** The order is the lexicographic one. */
  lemma {:induction false} LessIff(a: Key, b: Key)
    ensures Less(a, b) <==> exists i: nat :: LessAt(a, b, i)
    decreases |a|
  {
    forall i: nat | LessAt(a, b, i) && i > 0
      ensures a[0] == b[0]
    {
      SameFirst(a, b, i);
    }
    if b != [] {
      if a == [] || a[0] < b[0] {
        assert LessAt(a, b, 0);
      } else if a[0] == b[0] {
        LessIff(a[1..], b[1..]);
        if Less(a, b) {
          var i: nat :| LessAt(a[1..], b[1..], i);
          assert a[..i + 1] == [a[0]] + a[1..][..i] && b[..i + 1] == [b[0]] + b[1..][..i];
          assert LessAt(a, b, i + 1);
        }
        if exists i: nat :: LessAt(a, b, i) {
          var i: nat :| LessAt(a, b, i);
          assert i > 0;
          assert a[1..][..i - 1] == a[..i][1..] && b[1..][..i - 1] == b[..i][1..];
          assert LessAt(a[1..], b[1..], i - 1);
        }
      }
    }
  }

  lemma SameFirst(a: Key, b: Key, i: nat)
    requires LessAt(a, b, i) && i > 0
    ensures a[0] == b[0]
  {
    assert a[..i][0] == b[..i][0];
  }

  lemma {:induction false} LessTransitive(a: Key, b: Key, c: Key)
    requires Less(a, b) && Less(b, c)
    ensures Less(a, c)
    decreases |a|
  {
    if a != [] && a[0] == b[0] && b[0] == c[0] {
      LessTransitive(a[1..], b[1..], c[1..]);
    }
  }

  lemma {:induction false} LessIrreflexive(a: Key)
    ensures !Less(a, a)
    decreases |a|
  {
    if a != [] {
      LessIrreflexive(a[1..]);
    }
  }

  lemma {:induction false} LessTotal(a: Key, b: Key)
    ensures Less(a, b) || a == b || Less(b, a)
    decreases |a|
  {
    if a != [] && b != [] && a[0] == b[0] {
      LessTotal(a[1..], b[1..]);
      assert a == [a[0]] + a[1..] && b == [b[0]] + b[1..];
    }
  }

  predicate Increasing(ks: seq<Key>) {
    forall i, j :: 0 <= i < j < |ks| ==> Less(ks[i], ks[j])
  }

  lemma IncreasingDistinct(ks: seq<Key>)
    requires Increasing(ks)
    ensures Distinct(ks)
  {
    forall i, j | 0 <= i < j < |ks|
      ensures ks[i] != ks[j]
    {
      LessIrreflexive(ks[i]);
    }
  }

  /** Sorting has one result: an increasing sequence is determined by its elements. */
  lemma {:induction false} IncreasingUnique(a: seq<Key>, b: seq<Key>)
    requires Increasing(a) && Increasing(b)
    requires forall k :: k in a <==> k in b
    ensures a == b
    decreases |a|
  {
    if a == [] {
      if b != [] {
        HasElement(b);
      }
    } else {
      assert a[0] in b && b[0] in a;
      FirstIsLeast(a, b[0]);
      FirstIsLeast(b, a[0]);
      if Less(a[0], b[0]) && Less(b[0], a[0]) {
        LessTransitive(a[0], b[0], a[0]);
        LessIrreflexive(a[0]);
      }
      IncreasingDistinct(a);
      IncreasingDistinct(b);
      forall k
        ensures k in a[1..] <==> k in b[1..]
      {
        assert k in a <==> k == a[0] || k in a[1..];
        assert k in b <==> k == b[0] || k in b[1..];
      }
      IncreasingUnique(a[1..], b[1..]);
      assert a == [a[0]] + a[1..] && b == [b[0]] + b[1..];
    }
  }

  lemma HasElement(ks: seq<Key>)
    requires ks != []
    ensures exists k :: k in ks
  {
    assert ks[0] in ks;
  }

  lemma FirstIsLeast(ks: seq<Key>, k: Key)
    requires Increasing(ks) && k in ks
    ensures ks[0] == k || Less(ks[0], k)
  {
    var i :| 0 <= i < |ks| && ks[i] == k;
  }

  type Map<V> = m: seq<(Key, V)> | Increasing(Keys(m)) witness []

  function Keys<V>(m: seq<(Key, V)>): (ks: seq<Key>)
    ensures |ks| == |m|
    ensures forall i :: 0 <= i < |m| ==> ks[i] == m[i].0
  {
    seq(|m|, i requires 0 <= i < |m| => m[i].0)
  }

  function Get<V>(m: seq<(Key, V)>, k: Key): Option<V> {
    if m == [] then None
    else if m[0].0 == k then Some(m[0].1)
    else Get(m[1..], k)
  }

  /** Replaces the value of `k`, or adds an entry for it at its place. */
  function Insert<V>(m: seq<(Key, V)>, k: Key, v: V): seq<(Key, V)> {
    if m == [] || Less(k, m[0].0) then [(k, v)] + m
    else if m[0].0 == k then [(k, v)] + m[1..]
    else [m[0]] + Insert(m[1..], k, v)
  }

  lemma {:induction false} InsertKeys<V>(m: seq<(Key, V)>, k: Key, v: V)
    ensures forall j :: j in Keys(Insert(m, k, v)) <==> j == k || j in Keys(m)
  {
    hide Less;
    var r := Insert(m, k, v);
    if m == [] || Less(k, m[0].0) {
      assert Keys(r) == [k] + Keys(m);
    } else {
      assert Keys(m) == [m[0].0] + Keys(m[1..]);
      if m[0].0 == k {
        assert Keys(r) == [k] + Keys(m[1..]);
      } else {
        InsertKeys(m[1..], k, v);
        assert Keys(r) == [m[0].0] + Keys(Insert(m[1..], k, v));
      }
    }
  }

  lemma {:induction false} InsertIncreasing<V>(m: Map<V>, k: Key, v: V)
    ensures Increasing(Keys(Insert(m, k, v)))
    decreases |m|
  {
    var r := Insert(m, k, v);
    if m == [] || Less(k, m[0].0) {
      assert Keys(r) == [k] + Keys(m);
      forall j | j in Keys(m)
        ensures Less(k, j)
      {
        FirstIsLeast(Keys(m), j);
        if j != m[0].0 {
          LessTransitive(k, m[0].0, j);
        }
      }
      ConsIncreasing(k, Keys(m));
    } else if m[0].0 == k {
      assert Keys(r) == Keys(m);
    } else {
      TailIncreasing(m);
      InsertIncreasing(m[1..], k, v);
      InsertKeys(m[1..], k, v);
      LessTotal(k, m[0].0);
      var ks := Keys(Insert(m[1..], k, v));
      assert Keys(r) == [m[0].0] + ks;
      assert Keys(m) == [m[0].0] + Keys(m[1..]);
      ConsLess(m[0].0, Keys(m[1..]));
      ConsIncreasing(m[0].0, ks);
    }
  }

  lemma ConsIncreasing(k: Key, ks: seq<Key>)
    requires Increasing(ks) && forall j :: j in ks ==> Less(k, j)
    ensures Increasing([k] + ks)
  {
    hide Less;
    forall i, j | 0 <= i < j < |[k] + ks|
      ensures Less(([k] + ks)[i], ([k] + ks)[j])
    {
      assert ks[j - 1] in ks;
    }
  }

  lemma ConsLess(k: Key, ks: seq<Key>)
    requires Increasing([k] + ks)
    ensures forall j :: j in ks ==> Less(k, j)
  {
    hide Less;
    forall j | j in ks
      ensures Less(k, j)
    {
      var i :| 0 <= i < |ks| && ks[i] == j;
      assert ([k] + ks)[i + 1] == j && ([k] + ks)[0] == k;
    }
  }

  lemma TailIncreasing<V>(m: Map<V>)
    requires m != []
    ensures Increasing(Keys(m[1..]))
  {
    assert Keys(m[1..]) == Keys(m)[1..];
  }

  lemma {:induction false} InsertGet<V>(m: seq<(Key, V)>, k: Key, v: V, j: Key)
    ensures Get(Insert(m, k, v), j) == if j == k then Some(v) else Get(m, j)
  {
    LessIrreflexive(k);
    if m != [] && !Less(k, m[0].0) && m[0].0 != k {
      InsertGet(m[1..], k, v, j);
    }
  }

  lemma {:induction false} GetKeys<V>(m: seq<(Key, V)>, k: Key)
    ensures Get(m, k).Some? <==> k in Keys(m)
  {
    if m != [] {
      assert Keys(m) == [m[0].0] + Keys(m[1..]);
      GetKeys(m[1..], k);
    }
  }

  lemma {:induction false} GetEntry<V>(m: Map<V>, i: nat)
    requires i < |m|
    ensures Get(m, m[i].0) == Some(m[i].1)
    decreases |m|
  {
    if i > 0 {
      assert Less(Keys(m)[0], Keys(m)[i]);
      LessIrreflexive(m[i].0);
      TailIncreasing(m);
      GetEntry(m[1..], i - 1);
    }
  }

  lemma {:induction false} GetIn<V>(m: seq<(Key, V)>, k: Key)
    requires Get(m, k).Some?
    ensures (k, Get(m, k).value) in m
  {
    if m[0].0 != k {
      GetIn(m[1..], k);
    }
  }

  lemma {:induction false} InsertLength<V>(m: seq<(Key, V)>, k: Key, v: V)
    requires Get(m, k).None?
    ensures |Insert(m, k, v)| == |m| + 1
  {
    if m != [] {
      InsertLength(m[1..], k, v);
    }
  }
}
