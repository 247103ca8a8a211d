/** The iterators over a store: single blobs, and groups of N blobs. */
module BlobIterator {
  import opened Common
  import opened Vlq
  import opened BlobStore

  class BlobIterator {
    var data: seq<byte>
    var dedup: seq<Blob>
    var pos: nat

    constructor (data: seq<byte>, dedup: seq<Blob>)
      ensures this.data == data && this.dedup == dedup && pos == 0
    {
      this.data, this.dedup, this.pos := data, dedup, 0;
    }

    method ErrorBlock()
      modifies this`pos
      ensures pos == |data|
    {
      pos := |data|;
    }

    /** `read`. */
    method Read() returns (r: Item)
      requires pos < |data|
      modifies this`pos
      ensures r != End && r == NextItem(data, dedup, old(pos)).0
      ensures !r.Fails? ==> pos == NextItem(data, dedup, old(pos)).1
    {
      var n, next := ReadVlq(data, pos);
      pos := next;
      if n.Err? {
        return Panics;
      }
      var isRef, val := n.value % 2 != 0, n.value / 2;
      if isRef {
        if val >= |dedup| {
          return Fails(InvalidIndex);
        }
        return Yields(dedup[val]);
      }
      var s := pos;
      pos := pos + val;
      if pos > |data| {
        return Fails(UnexpectedEnd);
      }
      return Yields(data[s..pos]);
    }

    /** `next`. */
    method Next() returns (r: Item)
      modifies this`pos
      ensures (r, pos) == NextItem(data, dedup, old(pos))
    {
      if pos < |data| {
        r := Read();
        if r.Fails? {
          ErrorBlock();
        }
      } else {
        r := End;
      }
    }
  }

  /** `BlobIterator::new`. */
  method NewIterator(data: seq<byte>) returns (r: Opened, it: BlobIterator?)
    ensures r == OpenStore(data)
    ensures r.Open? <==> it != null
    ensures it != null ==> fresh(it) && it.data == r.body && it.dedup == r.dedup && it.pos == 0
  {
    hide Read, ReadIndex, Continue;
    it := null;
    var n, pos: nat := ReadVlq(data, 0);
    if n.Err? {
      return Failed(n.error), null;
    }
    ReadSpec(data, 0);
    var dedup: seq<Blob> := [];
    ghost var whole := ReadIndex(data, pos, n.value);
    ContinueNothing(whole);
    while |dedup| < n.value
      invariant n.Ok? && |dedup| <= n.value && pos <= |data|
      invariant whole == Continue(dedup, ReadIndex(data, pos, n.value - |dedup|))
      decreases n.value - |dedup|
    {
      IndexStep(data, dedup, pos, n.value - |dedup|);
      var m, start := ReadVlq(data, pos);
      if m.Err? || start + m.value > |data| {
        return OpenPanics, null;
      }
      dedup := dedup + [data[start..start + m.value]];
      pos := start + m.value;
    }
    IndexEnd(data, dedup, pos);
    it := new BlobIterator(data[pos..], dedup);
    return Open(dedup, data[pos..]), it;
  }

  lemma ContinueNothing(rest: Option<(seq<Blob>, nat)>)
    ensures Continue([], rest) == rest
  {
    if rest.Some? {
      BeforeNothing(rest.value);
    }
  }

  lemma IndexStep(data: seq<byte>, done: seq<Blob>, pos: nat, k: nat)
    requires k > 0
    ensures var (m, start) := Read(data, pos);
            Continue(done, ReadIndex(data, pos, k))
            == if m.Err? || start + m.value > |data| then None
               else Continue(done + [data[start..start + m.value]], ReadIndex(data, start + m.value, k - 1))
  {
    hide Read;
    var (m, start) := Read(data, pos);
    if m.Ok? && start + m.value <= |data| {
      var rest := ReadIndex(data, start + m.value, k - 1);
      if rest.Some? {
        BeforeTwice(done, data[start..start + m.value], rest.value);
      }
    }
  }

  lemma IndexEnd(data: seq<byte>, done: seq<Blob>, pos: nat)
    ensures Continue(done, ReadIndex(data, pos, 0)) == Some((done, pos))
  {
    BeforeNone(done, pos);
  }

  ghost function Continue(done: seq<Blob>, rest: Option<(seq<Blob>, nat)>): Option<(seq<Blob>, nat)> {
    if rest.None? then None else Some(PutBefore(done, rest.value))
  }

  // ----- groups of n blobs -----

  datatype Group = Blobs(items: seq<Blob>) | GroupError(error: Error) | GroupEnd | GroupPanics

  /** One call of `next` of an iterator over groups of `n`, when it has collected `done` so far. */
  function NextGroup(data: seq<byte>, dedup: seq<Blob>, pos: nat, n: nat, done: seq<Blob>): (Group, nat)
    requires |done| <= n
    decreases n - |done|
  {
    if |done| == n then (Blobs(done), pos)
    else match NextItem(data, dedup, pos)
      case (Yields(b), next) => NextGroup(data, dedup, next, n, done + [b])
      case (Fails(e), next) => (GroupError(e), next)
      case (Panics, next) => (GroupPanics, next)
      case (End, next) => if done == [] then (GroupEnd, next) else (GroupError(NotEnoughElements), |data|)
  }

  class GroupIterator {
    const n: nat
    const inner: BlobIterator

    constructor (n: nat, inner: BlobIterator)
      ensures this.n == n && this.inner == inner
    {
      this.n, this.inner := n, inner;
    }

    /** `next` of the iterators that `new_iter!` defines, on all data. */
    method Next() returns (r: Group)
      modifies inner`pos
      ensures (r, inner.pos) == NextGroup(inner.data, inner.dedup, old(inner.pos), n, [])
    {
      hide NextItem;
      var res: seq<Blob> := [];
      while |res| < n
        invariant |res| <= n
        invariant NextGroup(inner.data, inner.dedup, inner.pos, n, res)
                  == NextGroup(inner.data, inner.dedup, old(inner.pos), n, [])
        decreases n - |res|
      {
        var v := inner.Next();
        match v {
          case Yields(b) =>
            res := res + [b];
          case Fails(e) =>
            return GroupError(e);
          case Panics =>
            return GroupPanics;
          case End =>
            if res == [] {
              return GroupEnd;
            }
            inner.ErrorBlock();
            return GroupError(NotEnoughElements);
        }
      }
      return Blobs(res);
    }
  }

  /** Every item makes progress, and an error is the last item: every later call reports the end. */
  lemma {:induction false} GroupProgress(data: seq<byte>, dedup: seq<Blob>, pos: nat, n: nat, done: seq<Blob>)
    requires |done| < n
    ensures var (g, next) := NextGroup(data, dedup, pos, n, done);
            && (g.Blobs? ==> |g.items| == n && done <= g.items && pos < next <= |data|)
            && (g.GroupError? ==> next == |data| && (done == [] ==> pos < next)
                                  && NextGroup(data, dedup, next, n, []) == (GroupEnd, next))
            && (g.GroupEnd? ==> done == [] && next == pos >= |data|)
    decreases n - |done|
  {
    ItemProgress(data, dedup, pos);
    hide NextItem;
    match NextItem(data, dedup, pos) {
      case (Yields(b), next) =>
        if |done| + 1 < n {
          GroupProgress(data, dedup, next, n, done + [b]);
        }
      case _ =>
    }
    EndOfGroups(data, dedup, n);
  }

  lemma EndOfGroups(data: seq<byte>, dedup: seq<Blob>, n: nat)
    requires n > 0
    ensures NextGroup(data, dedup, |data|, n, []) == (GroupEnd, |data|)
  {
  }

  lemma ItemProgress(data: seq<byte>, dedup: seq<Blob>, pos: nat)
    ensures var (v, next) := NextItem(data, dedup, pos);
            && (v.Yields? ==> pos < next <= |data|)
            && (v.Fails? ==> pos < next == |data|)
            && (v.End? ==> next == pos >= |data|)
  {
    if pos < |data| {
      ReadSpec(data, pos);
      hide Read;
    }
  }

  function BlobsOf(idx: seq<Blob>, es: seq<Entry>): (bs: seq<Blob>)
    requires forall i :: 0 <= i < |es| ==> FitsEntry(es[i], |idx|)
    ensures |bs| == |es| && forall i :: 0 <= i < |es| ==> bs[i] == BlobOf(idx, es[i])
  {
    seq(|es|, i requires 0 <= i < |es| => BlobOf(idx, es[i]))
  }

  /** What a group iterator does where the data print the entries `es`. */
  lemma {:induction false} GroupPrinted(data: seq<byte>, idx: seq<Blob>, pos: nat, es: seq<Entry>, n: nat,
                                        done: seq<Blob>)
    requires pos <= |data| && data[pos..] == PrintBody(es)
    requires |done| <= n && forall i :: 0 <= i < |es| ==> FitsEntry(es[i], |idx|)
    ensures var (g, next) := NextGroup(data, idx, pos, n, done);
            var k := n - |done|;
            && next <= |data|
            && (|es| >= k ==> g == Blobs(done + BlobsOf(idx, es[..k])) && data[next..] == PrintBody(es[k..]))
            && (|es| < k ==> data[next..] == PrintBody([])
                             && g == if done == [] && es == [] then GroupEnd else GroupError(NotEnoughElements))
    decreases |es|
  {
    hide NextItem, PrintEntry, FitsEntry, BlobOf;
    var k := n - |done|;
    if k == 0 {
      assert done + BlobsOf(idx, es[..0]) == done && es[0..] == es;
    } else if es == [] {
      NothingLeft(data, idx, pos);
    } else {
      NextPrinted(data, idx, pos, es);
      var b, next := BlobOf(idx, es[0]), pos + |PrintEntry(es[0])|;
      GroupPrinted(data, idx, next, es[1..], n, done + [b]);
      if |es| >= k {
        assert (done + [b]) + BlobsOf(idx, es[1..][..k - 1]) == done + BlobsOf(idx, es[..k]);
        assert es[1..][k - 1..] == es[k..];
      }
    }
  }

  lemma NothingLeft(data: seq<byte>, idx: seq<Blob>, pos: nat)
    requires pos <= |data| && data[pos..] == PrintBody([])
    ensures pos == |data| && NextItem(data, idx, pos) == (End, pos)
  {
  }

  // ----- whole runs -----

  /** Opening a well-formed store and calling `next` any number of times gives its blobs in order,
      and from then on the end. */
  method RunBlobs(data: seq<byte>, calls: nat, ghost idx: seq<Blob>, ghost es: seq<Entry>) returns (items: seq<Item>)
    requires FitsStore(idx, es) && data == PrintStore(idx, es)
    ensures |items| == calls
    ensures forall t :: 0 <= t < calls ==> items[t] == if t < |es| then Yields(BlobOf(idx, es[t])) else End
  {
    hide PrintStore, FitsEntry, OpenStore, NextItem, PrintBody, BlobOf, EntriesAfter;
    OpenPrinted(idx, es);
    var status, it := NewIterator(data);
    items := [];
    assert it.data[0..] == it.data;
    AllEntries(es);
    while |items| < calls
      invariant |items| <= calls && it.dedup == idx
      invariant it.pos <= |it.data| && it.data[it.pos..] == PrintBody(EntriesAfter(es, |items|))
      invariant forall t :: 0 <= t < |items| ==> items[t] == if t < |es| then Yields(BlobOf(idx, es[t])) else End
    {
      ItemCall(it.data, idx, it.pos, es, |items|);
      var item := it.Next();
      items := items + [item];
    }
  }

  /** The entries that are left after `t` calls. */
  ghost function EntriesAfter(es: seq<Entry>, t: nat): seq<Entry> {
    if t <= |es| then es[t..] else []
  }

  lemma AllEntries(es: seq<Entry>)
    ensures EntriesAfter(es, 0) == es
  {
    assert es[0..] == es;
  }

  /** The call after `t` calls, where the data print what those calls have left. */
  lemma ItemCall(data: seq<byte>, idx: seq<Blob>, pos: nat, es: seq<Entry>, t: nat)
    requires FitsStore(idx, es) && pos <= |data| && data[pos..] == PrintBody(EntriesAfter(es, t))
    ensures var (v, next) := NextItem(data, idx, pos);
            && v == (if t < |es| then Yields(BlobOf(idx, es[t])) else End)
            && next <= |data| && data[next..] == PrintBody(EntriesAfter(es, t + 1))
  {
    hide NextItem, FitsEntry, PrintEntry, BlobOf;
    if t < |es| {
      assert es[t..][0] == es[t] && es[t..][1..] == es[t + 1..];
      NextPrinted(data, idx, pos, es[t..]);
    } else {
      assert EntriesAfter(es, t) == [];
      NothingLeft(data, idx, pos);
    }
  }

  /** What the `t`-th call on a store of blobs `bs` returns, in groups of `n`. */
  function GroupAt(bs: seq<Blob>, n: nat, t: nat): Group
    requires n > 0
  {
    if (t + 1) * n <= |bs| then assert t * n <= (t + 1) * n; Blobs(bs[t * n..(t + 1) * n])
    else if t * n < |bs| then GroupError(NotEnoughElements)
    else GroupEnd
  }

  lemma Quotient(k: nat, n: nat, t: nat)
    requires n > 0
    ensures (t + 1) * n <= k <==> t < k / n
    ensures t * n < k <==> t < k / n || (t == k / n && k % n != 0)
  {
    var q := k / n;
    assert k == q * n + k % n;
    if t < q {
      assert (t + 1) * n <= q * n;
    } else if t > q {
      assert t * n >= (q + 1) * n;
    }
  }

  /** The first `k` groups. */
  ghost function Groups(bs: seq<Blob>, n: nat, k: nat): (gs: seq<seq<Blob>>)
    ensures |gs| == k
    decreases k
  {
    if k == 0 then [] else Groups(bs, n, k - 1) + [GroupSlice(bs, n, k - 1)]
  }

  ghost function GroupSlice(bs: seq<Blob>, n: nat, t: nat): seq<Blob> {
    if (t + 1) * n <= |bs| then assert t * n <= (t + 1) * n; bs[t * n..(t + 1) * n] else []
  }

  lemma {:induction false} GroupsFlatten(bs: seq<Blob>, n: nat, k: nat)
    requires k * n <= |bs|
    ensures Concat(Groups(bs, n, k)) == bs[..k * n]
    decreases k
  {
    hide Concat;
    if k == 0 {
      ConcatNone<Blob>();
    } else {
      assert k * n == (k - 1) * n + n;
      GroupsFlatten(bs, n, k - 1);
      var last := GroupSlice(bs, n, k - 1);
      ConcatAppend(Groups(bs, n, k - 1), [last]);
      ConcatOne(last);
    }
  }

  /** How many of `k` blobs fill whole groups. */
  ghost function Grouped(k: nat, n: nat): (r: nat)
    requires n > 0
    ensures r <= k && r == (k / n) * n
  {
    assert k == (k / n) * n + k % n;
    k - k % n
  }

  /** The shape of grouped iteration over `k` blobs: `k / n` groups that hold the first
      `n * (k / n)` blobs in order, one error if `n` does not divide `k`, and then the end. */
  lemma GroupedIteration(bs: seq<Blob>, n: nat, t: nat)
    requires n > 0
    ensures GroupAt(bs, n, t).Blobs? <==> t < |bs| / n
    ensures GroupAt(bs, n, t) == GroupError(NotEnoughElements) <==> t == |bs| / n && |bs| % n != 0
    ensures t < |bs| / n ==> GroupAt(bs, n, t) == Blobs(GroupSlice(bs, n, t))
    ensures Concat(Groups(bs, n, |bs| / n)) == bs[..Grouped(|bs|, n)]
  {
    Quotient(|bs|, n, t);
    GroupsFlatten(bs, n, |bs| / n);
  }

  /** The entries that are left after `t` calls. */
  ghost function LeftAfter(es: seq<Entry>, n: nat, t: nat): seq<Entry> {
    if t * n <= |es| then es[t * n..] else []
  }

  lemma GroupStep(idx: seq<Blob>, es: seq<Entry>, n: nat, t: nat)
    requires n > 0 && FitsStore(idx, es)
    ensures var left, bs := LeftAfter(es, n, t), BlobsOf(idx, es);
            && (|left| >= n ==> LeftAfter(es, n, t + 1) == left[n..]
                                && GroupAt(bs, n, t) == Blobs(BlobsOf(idx, left[..n])))
            && (0 < |left| < n ==> LeftAfter(es, n, t + 1) == [] && GroupAt(bs, n, t) == GroupError(NotEnoughElements))
            && (left == [] ==> LeftAfter(es, n, t + 1) == [] && GroupAt(bs, n, t) == GroupEnd)
  {
    var a := t * n;
    assert (t + 1) * n == a + n;
    var left := LeftAfter(es, n, t);
    if |left| >= n {
      assert es[a..][n..] == es[a + n..];
      assert BlobsOf(idx, left[..n]) == BlobsOf(idx, es)[a..a + n];
    }
  }

  /** Grouped iteration, for every number of calls: whole groups, then one error exactly when `n`
      does not divide the number of blobs, then the end forever. */
  method RunGroups(data: seq<byte>, n: nat, calls: nat, ghost idx: seq<Blob>, ghost es: seq<Entry>)
    returns (groups: seq<Group>)
    requires n > 0 && FitsStore(idx, es) && data == PrintStore(idx, es)
    ensures |groups| == calls
    ensures forall t :: 0 <= t < calls ==> groups[t] == GroupAt(BlobsOf(idx, es), n, t)
  {
    hide PrintStore, GroupAt, LeftAfter, PrintBody, FitsEntry, BlobsOf, NextGroup, OpenStore;
    OpenPrinted(idx, es);
    var status, it := NewIterator(data);
    var gi := new GroupIterator(n, it);
    groups := [];
    assert it.data[0..] == it.data;
    LeftAtStart(es, n);
    while |groups| < calls
      invariant |groups| <= calls && gi.inner == it && gi.n == n && it.dedup == idx && fresh(it)
      invariant it.pos <= |it.data| && it.data[it.pos..] == PrintBody(LeftAfter(es, n, |groups|))
      invariant forall k :: 0 <= k < |groups| ==> groups[k] == GroupAt(BlobsOf(idx, es), n, k)
    {
      GroupCall(it.data, idx, it.pos, es, n, |groups|);
      var g := gi.Next();
      groups := groups + [g];
    }
  }

  /** The call after `t` calls, where the data print what those calls have left. */
  lemma GroupCall(data: seq<byte>, idx: seq<Blob>, pos: nat, es: seq<Entry>, n: nat, t: nat)
    requires n > 0 && FitsStore(idx, es) && pos <= |data| && data[pos..] == PrintBody(LeftAfter(es, n, t))
    ensures var (g, next) := NextGroup(data, idx, pos, n, []);
            && g == GroupAt(BlobsOf(idx, es), n, t)
            && next <= |data| && data[next..] == PrintBody(LeftAfter(es, n, t + 1))
  {
    hide NextGroup, GroupAt, LeftAfter, PrintBody, FitsEntry, BlobsOf;
    var left := LeftAfter(es, n, t);
    LeftFits(idx, es, n, t);
    GroupStep(idx, es, n, t);
    GroupPrinted(data, idx, pos, left, n, []);
    if |left| >= n {
      assert [] + BlobsOf(idx, left[..n]) == BlobsOf(idx, left[..n]);
    }
  }

  lemma LeftFits(idx: seq<Blob>, es: seq<Entry>, n: nat, t: nat)
    requires FitsStore(idx, es)
    ensures forall i :: 0 <= i < |LeftAfter(es, n, t)| ==> FitsEntry(LeftAfter(es, n, t)[i], |idx|)
  {
    hide FitsEntry;
    var a := t * n;
    if a <= |es| {
      assert forall i :: 0 <= i < |es[a..]| ==> es[a..][i] == es[a + i];
    }
  }

  lemma LeftAtStart(es: seq<Entry>, n: nat)
    ensures LeftAfter(es, n, 0) == es
  {
    assert es[0..] == es;
  }
}
