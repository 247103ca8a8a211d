/** The order of the index is the best one: no other order of the repeated blobs that keeps `[0]`
    and `[1]` in front gives a shorter store. */
module BlobIndexOrder {
  import opened Common
  import opened OrderedMap
  import opened Vlq
  import opened BlobStore
  import opened BlobEncoder

  /** The bytes of a reference to position `j`. */
  function Weight(j: nat): nat {
    |Code(2 * j + 1)|
  }

  /** The bytes of all references, counted per position: `order` starts at position `from`. */
  function PerPosition(order: seq<Blob>, all: multiset<Blob>, from: nat): nat
    decreases |order|
  {
    if order == [] then 0
    else Term(all, order[0], from) + PerPosition(order[1..], all, from + 1)
  }

  /** The bytes of all references to `b` at position `j`. */
  function Term(all: multiset<Blob>, b: Blob, j: nat): nat {
    all[b] * Weight(j)
  }

  /** The bytes of all references, counted along the list. */
  function AlongList(order: seq<Blob>, bs: seq<Blob>): nat {
    if bs == [] then 0
    else (if bs[0] in order then Weight(PositionOf(order, bs[0])) else 0) + AlongList(order, bs[1..])
  }

  /** The bytes of the blobs that are stored in place. */
  function InPlace(idx: seq<Blob>, bs: seq<Blob>): nat {
    if bs == [] then 0
    else (if bs[0] in idx then 0 else |PrintEntry(Literal(bs[0]))|) + InPlace(idx, bs[1..])
  }

  // ----- the two ways to count agree -----

  lemma {:induction false} PerPositionNone(order: seq<Blob>, from: nat)
    ensures PerPosition(order, multiset{}, from) == 0
    decreases |order|
  {
    if order != [] {
      PerPositionNone(order[1..], from + 1);
    }
  }

  lemma {:induction false} PerPositionMore(order: seq<Blob>, all: multiset<Blob>, b: Blob, from: nat)
    requires Distinct(order)
    ensures PerPosition(order, all + multiset{b}, from)
            == PerPosition(order, all, from) + if b in order then Weight(from + PositionOf(order, b)) else 0
    decreases |order|
  {
    if order != [] {
      PerPositionMore(order[1..], all, b, from + 1);
      if order[0] == b {
        assert b !in order[1..];
        Distribute(all[b], Weight(from));
      }
    }
  }

  lemma Distribute(a: nat, w: nat)
    ensures (a + 1) * w == a * w + w
  {
  }

  lemma {:induction false} CountsAgree(order: seq<Blob>, bs: seq<Blob>)
    requires Distinct(order)
    ensures AlongList(order, bs) == PerPosition(order, multiset(bs), 0)
  {
    if bs == [] {
      PerPositionNone(order, 0);
    } else {
      CountsAgree(order, bs[1..]);
      PerPositionMore(order, multiset(bs[1..]), bs[0], 0);
      assert bs == [bs[0]] + bs[1..];
      assert multiset(bs) == multiset(bs[1..]) + multiset{bs[0]};
    }
  }

  // ----- the exchange argument -----

  lemma {:induction false} PerPositionUpdate(order: seq<Blob>, all: multiset<Blob>, from: nat, i: nat, b: Blob)
    requires i < |order|
    ensures PerPosition(order[i := b], all, from)
            == PerPosition(order, all, from) + Term(all, b, from + i) - Term(all, order[i], from + i)
    decreases |order|
  {
    if i > 0 {
      assert order[i := b][1..] == order[1..][i - 1 := b];
      PerPositionUpdate(order[1..], all, from + 1, i - 1, b);
    }
  }

  lemma WeightMonotone(i: nat, j: nat)
    requires i <= j && 2 * j + 1 <= MAX
    ensures Weight(i) <= Weight(j)
  {
    LenMonotone(2 * i + 1, 2 * j + 1);
  }

  lemma CrossTerms(a: nat, b: nat, w: nat, v: nat)
    requires a <= b && w <= v
    ensures b * w + a * v <= a * w + b * v
  {
    assert (b - a) * w <= (b - a) * v;
  }

  /** Moving a more frequent blob to the front does not cost more. */
  lemma SwapHelps(order: seq<Blob>, all: multiset<Blob>, from: nat, i: nat)
    requires 0 < i < |order| && all[order[0]] <= all[order[i]]
    requires 2 * (from + i) + 1 <= MAX
    ensures PerPosition(order[0 := order[i]][i := order[0]], all, from) <= PerPosition(order, all, from)
  {
    var x, y := order[0], order[i];
    PerPositionUpdate(order, all, from, 0, y);
    PerPositionUpdate(order[0 := y], all, from, i, x);
    WeightMonotone(from, from + i);
    CrossTerms(all[x], all[y], Weight(from), Weight(from + i));
  }

  ghost predicate Descending(order: seq<Blob>, all: multiset<Blob>) {
    forall i, j :: 0 <= i < j < |order| ==> all[order[i]] >= all[order[j]]
  }

  lemma {:induction false} DescendingIsBest(best: seq<Blob>, order: seq<Blob>, all: multiset<Blob>, from: nat)
    requires Descending(best, all) && multiset(best) == multiset(order)
    requires 2 * (from + |best|) <= MAX + 1
    ensures PerPosition(best, all, from) <= PerPosition(order, all, from)
    decreases |best|
  {
    hide Term;
    SameElements(best, order);
    if best != [] {
      assert best[0] in best;
      forall b | b in order
        ensures all[b] <= all[best[0]]
      {
        var k := PositionOf(best, b);
      }
      var swapped := BestFirst(order, best[0], all, from);
      TailMultiset(best);
      TailMultiset(swapped);
      DescendingIsBest(best[1..], swapped[1..], all, from + 1);
    }
  }

  lemma BestFirst(order: seq<Blob>, x: Blob, all: multiset<Blob>, from: nat) returns (swapped: seq<Blob>)
    requires x in order && 2 * (from + |order|) <= MAX + 1
    requires forall b :: b in order ==> all[b] <= all[x]
    ensures swapped != [] && swapped[0] == x && multiset(swapped) == multiset(order)
    ensures PerPosition(swapped, all, from) <= PerPosition(order, all, from)
  {
    hide Term;
    var i := PositionOf(order, x);
    swapped := order;
    if i > 0 {
      assert order[0] in order;
      SwapHelps(order, all, from, i);
      swapped := order[0 := order[i]][i := order[0]];
    }
  }

  lemma TailMultiset(s: seq<Blob>)
    requires s != []
    ensures multiset(s[1..]) == multiset(s) - multiset{s[0]}
  {
    assert s == [s[0]] + s[1..];
  }

  // ----- the blobs that are kept in front -----

  function Front(order: seq<Blob>): seq<Blob> {
    (if [0] in order then [[0]] else []) + (if [1] in order then [[1]] else [])
  }

  lemma IndexKeepsFront(idx: seq<Blob>, bs: seq<Blob>)
    requires IsIndex(idx, bs)
    ensures Front(idx) <= idx
  {
    if [0] in idx {
      var i := PositionOf(idx, [0]);
      if i > 0 {
        assert Before(bs, idx[0], idx[i]);
        LessIrreflexive([0]);
      }
      assert idx[0] == [0];
    }
    if [1] in idx {
      var i := PositionOf(idx, [1]);
      forall k | 0 <= k < i
        ensures idx[k] == [0]
      {
        assert Before(bs, idx[k], idx[i]);
        LessIrreflexive([1]);
      }
      assert i > 1 ==> idx[0] == idx[1];
      IndexDistinct(idx, bs);
      assert i == |Front(idx)| - 1;
    }
  }

  lemma {:induction false} PerPositionSplit(a: seq<Blob>, b: seq<Blob>, all: multiset<Blob>, from: nat)
    ensures PerPosition(a + b, all, from) == PerPosition(a, all, from) + PerPosition(b, all, from + |a|)
    decreases |a|
  {
    if a == [] {
      assert a + b == b;
    } else {
      assert (a + b)[1..] == a[1..] + b;
      PerPositionSplit(a[1..], b, all, from + 1);
    }
  }

  /** Among all orders of the index that keep `[0]` and `[1]` in front, the emitted one spends the
      fewest bytes on references. */
  lemma ReferencesAreCheapest(idx: seq<Blob>, order: seq<Blob>, bs: seq<Blob>)
    requires IsIndex(idx, bs) && 2 * |idx| <= MAX + 1
    requires multiset(order) == multiset(idx) && Front(order) <= order
    ensures AlongList(idx, bs) <= AlongList(order, bs)
  {
    hide PerPosition, AlongList, Front, IsIndex, Descending, Distinct;
    SameElements(idx, order);
    IndexDistinct(idx, bs);
    DistinctByMultiset(idx, order);
    CountsAgree(idx, bs);
    CountsAgree(order, bs);
    DescendingBehindFront(idx, bs);
    var f := Front(idx);
    BehindPrefix(idx, f);
    BehindPrefix(order, f);
    BestBehindFront(f, idx[|f|..], order[|f|..], multiset(bs));
  }

  lemma BehindPrefix(s: seq<Blob>, f: seq<Blob>)
    requires f <= s
    ensures s == f + s[|f|..]
  {
  }

  lemma BestBehindFront(f: seq<Blob>, best: seq<Blob>, rest: seq<Blob>, all: multiset<Blob>)
    requires multiset(f + best) == multiset(f + rest) && Descending(best, all)
    requires 2 * (|f| + |best|) <= MAX + 1
    ensures PerPosition(f + best, all, 0) <= PerPosition(f + rest, all, 0)
  {
    SameBehind(f, best, rest);
    PerPositionSplit(f, best, all, 0);
    PerPositionSplit(f, rest, all, 0);
    DescendingIsBest(best, rest, all, |f|);
  }

  lemma SameBehind(f: seq<Blob>, a: seq<Blob>, b: seq<Blob>)
    requires multiset(f + a) == multiset(f + b)
    ensures multiset(a) == multiset(b)
  {
    assert multiset(f + a) == multiset(f) + multiset(a);
    assert multiset(f + b) == multiset(f) + multiset(b);
    assert multiset(a) == multiset(f + a) - multiset(f);
  }

  lemma DescendingBehindFront(idx: seq<Blob>, bs: seq<Blob>)
    requires IsIndex(idx, bs)
    ensures Front(idx) <= idx && Descending(idx[|Front(idx)|..], multiset(bs))
  {
    IndexKeepsFront(idx, bs);
    var f := |Front(idx)|;
    var best := idx[f..];
    forall i, j | 0 <= i < j < |best|
      ensures Count(bs, best[i]) >= Count(bs, best[j])
    {
      assert Before(bs, idx[f + i], idx[f + j]);
      BehindFront(idx, bs, f + i);
      BehindFront(idx, bs, f + j);
    }
  }

  lemma SameElements(idx: seq<Blob>, order: seq<Blob>)
    requires multiset(order) == multiset(idx)
    ensures |order| == |idx| && Front(order) == Front(idx)
    ensures forall b :: b in order <==> b in idx
  {
    assert |order| == |multiset(order)| == |multiset(idx)| == |idx|;
    forall b
      ensures b in order <==> b in idx
    {
      assert b in order <==> b in multiset(order);
      assert b in idx <==> b in multiset(idx);
    }
  }

  lemma BehindFront(idx: seq<Blob>, bs: seq<Blob>, i: nat)
    requires IsIndex(idx, bs) && |Front(idx)| <= i < |idx|
    ensures Rank(idx[i]) == 0
  {
    IndexKeepsFront(idx, bs);
    var f := Front(idx);
    assert [0] in idx ==> f[0] == [0] && idx[0] == [0];
    assert [1] in idx ==> f[|f| - 1] == [1] && idx[|f| - 1] == [1];
    IndexDistinct(idx, bs);
    assert idx[i] in idx;
  }

  lemma DistinctByMultiset(a: seq<Blob>, b: seq<Blob>)
    requires Distinct(a) && multiset(a) == multiset(b)
    ensures Distinct(b)
  {
    forall i, j | 0 <= i < j < |b|
      ensures b[i] != b[j]
    {
      if b[i] == b[j] {
        assert b == b[..i] + [b[i]] + b[i + 1..j] + [b[j]] + b[j + 1..];
        assert multiset(b)[b[i]] >= 2;
        AtMostOnce(a, b[i]);
      }
    }
  }

  lemma {:induction false} AtMostOnce(a: seq<Blob>, x: Blob)
    requires Distinct(a)
    ensures multiset(a)[x] <= 1
  {
    if a != [] {
      AtMostOnce(a[1..], x);
      assert a == [a[0]] + a[1..];
      if a[0] == x {
        assert x !in a[1..];
      }
    }
  }

  // ----- and so the whole store is the shortest -----

  lemma {:induction false} BodyLength(order: seq<Blob>, idx: seq<Blob>, bs: seq<Blob>)
    requires forall b :: b in order <==> b in idx
    ensures |PrintBody(EntriesFor(order, bs))| == AlongList(order, bs) + InPlace(idx, bs)
  {
    if bs != [] {
      BodyLength(order, idx, bs[1..]);
      assert EntriesFor(order, bs)[1..] == EntriesFor(order, bs[1..]);
    }
  }

  lemma {:induction false} PrintIndexSplit(a: seq<Blob>, b: seq<Blob>)
    ensures PrintIndex(a + b) == PrintIndex(a) + PrintIndex(b)
  {
    if a == [] {
      assert a + b == b;
    } else {
      assert (a + b)[1..] == a[1..] + b;
      PrintIndexSplit(a[1..], b);
    }
  }

  lemma {:induction false} IndexLength(a: seq<Blob>, b: seq<Blob>)
    requires multiset(a) == multiset(b)
    ensures |PrintIndex(a)| == |PrintIndex(b)|
    decreases |a|
  {
    if a == [] {
      assert |multiset(b)| == 0;
    } else {
      assert a[0] in multiset(b);
      var i :| 0 <= i < |b| && b[i] == a[0];
      var b' := b[..i] + b[i + 1..];
      assert b == b[..i] + ([b[i]] + b[i + 1..]);
      assert a == [a[0]] + a[1..];
      assert multiset(b') == multiset(b) - multiset{a[0]};
      PrintIndexSplit(b[..i], b[i + 1..]);
      PrintIndexSplit(b[..i], [b[i]] + b[i + 1..]);
      PrintIndexSplit([b[i]], b[i + 1..]);
      PrintIndexSplit([a[0]], a[1..]);
      IndexLength(a[1..], b');
    }
  }

  /** The index order is optimal for the size of the encoded data. */
  lemma IndexOrderIsOptimal(idx: seq<Blob>, order: seq<Blob>, bs: seq<Blob>)
    requires IsIndex(idx, bs) && FitsStore(idx, EntriesFor(idx, bs))
    requires multiset(order) == multiset(idx) && Front(order) <= order
    ensures |PrintStore(idx, EntriesFor(idx, bs))| <= |PrintStore(order, EntriesFor(order, bs))|
  {
    SizesFit(bs, idx);
    SameElements(idx, order);
    ReferencesAreCheapest(idx, order, bs);
    BodyLength(idx, idx, bs);
    BodyLength(order, idx, bs);
    IndexLength(idx, order);
  }
}
