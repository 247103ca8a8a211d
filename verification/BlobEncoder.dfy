/** `encode_blobs`: the frequency map, the sorted index, the reverse index and the output. */
module BlobEncoder {
  import opened Common
  import opened OrderedMap
  import opened Vlq
  import opened BlobStore
  import opened BlobIterator

  function Count(bs: seq<Blob>, b: Blob): nat {
    multiset(bs)[b]
  }

  function Rank(b: Blob): nat {
    if b == [0] then 2 else if b == [1] then 1 else 0
  }

  /** The sort key of `a` is at most that of `b`. */
  predicate KeyAtMost(bs: seq<Blob>, a: Blob, b: Blob) {
    Rank(a) < Rank(b) || (Rank(a) == Rank(b) && Count(bs, a) <= Count(bs, b))
  }

  /** The order of the index: by rank, then by count, then by content, each descending. */
  predicate Before(bs: seq<Blob>, a: Blob, b: Blob) {
    KeyAtMost(bs, b, a) && (KeyAtMost(bs, a, b) ==> Less(b, a))
  }

  /** The index of `bs`: its non-empty repeated blobs, in that order. */
  ghost predicate IsIndex(idx: seq<Blob>, bs: seq<Blob>) {
    && (forall b :: b in idx <==> b != [] && Count(bs, b) > 1)
    && (forall i, j :: 0 <= i < j < |idx| ==> Before(bs, idx[i], idx[j]))
  }

  lemma IndexDistinct(idx: seq<Blob>, bs: seq<Blob>)
    requires IsIndex(idx, bs)
    ensures Distinct(idx)
  {
    forall i, j | 0 <= i < j < |idx|
      ensures idx[i] != idx[j]
    {
      LessIrreflexive(idx[i]);
    }
  }

  lemma BeforeAsymmetric(bs: seq<Blob>, a: Blob, b: Blob)
    requires Before(bs, a, b)
    ensures !Before(bs, b, a)
  {
    if Less(a, b) && Less(b, a) {
      LessTransitive(a, b, a);
    }
    LessIrreflexive(a);
  }

  lemma {:induction false} OrderUnique(bs: seq<Blob>, a: seq<Blob>, b: seq<Blob>)
    requires forall x :: x in a <==> x in b
    requires forall i, j :: 0 <= i < j < |a| ==> Before(bs, a[i], a[j])
    requires forall i, j :: 0 <= i < j < |b| ==> Before(bs, b[i], b[j])
    ensures a == b
  {
    hide Before;
    if a == [] {
      if b != [] {
        HasElement(b);
      }
    } else {
      assert a[0] in b && b[0] in a;
      var i :| 0 <= i < |b| && b[i] == a[0];
      var j :| 0 <= j < |a| && a[j] == b[0];
      if i > 0 {
        BeforeAsymmetric(bs, b[0], a[0]);
      }
      assert a[0] == b[0];
      forall x
        ensures x in a[1..] <==> x in b[1..]
      {
        if Before(bs, x, x) {
          BeforeAsymmetric(bs, x, x);
        }
        assert x in a <==> x == a[0] || x in a[1..];
        assert x in b <==> x == b[0] || x in b[1..];
      }
      OrderUnique(bs, a[1..], b[1..]);
    }
  }

  /** A list of blobs has only one index. */
  lemma IndexUnique(bs: seq<Blob>, a: seq<Blob>, b: seq<Blob>)
    requires IsIndex(a, bs) && IsIndex(b, bs)
    ensures a == b
  {
    OrderUnique(bs, a, b);
  }

  function PositionOf(idx: seq<Blob>, b: Blob): (i: nat)
    requires b in idx
    ensures i < |idx| && idx[i] == b
  {
    if idx[0] == b then 0 else 1 + PositionOf(idx[1..], b)
  }

  function EntryFor(idx: seq<Blob>, b: Blob): Entry {
    if b in idx then Ref(PositionOf(idx, b)) else Literal(b)
  }

  function EntriesFor(idx: seq<Blob>, bs: seq<Blob>): (es: seq<Entry>)
    ensures |es| == |bs| && forall i :: 0 <= i < |bs| ==> es[i] == EntryFor(idx, bs[i])
  {
    seq(|bs|, i requires 0 <= i < |bs| => EntryFor(idx, bs[i]))
  }

  // ----- the steps of the encoder -----

  /** The occurrences of every non-empty blob. */
  method CountBlobs(bs: seq<Blob>) returns (m: Map<nat>)
    ensures forall b :: Get(m, b) == if b != [] && b in bs then Some(Count(bs, b)) else None
  {
    m := [];
    var i := 0;
    while i < |bs|
      invariant 0 <= i <= |bs|
      invariant forall b :: Get(m, b) == if b != [] && b in bs[..i] then Some(Count(bs[..i], b)) else None
    {
      var blob := bs[i];
      assert bs[..i + 1] == bs[..i] + [blob];
      ghost var was := m;
      if blob != [] {
        var v := Get(m, blob);
        var n := if v.Some? then v.value else 0;
        InsertIncreasing(m, blob, n + 1);
        m := Insert(m, blob, n + 1);
        forall b
          ensures Get(m, b) == if b == blob then Some(n + 1) else Get(was, b)
        {
          InsertGet(was, blob, n + 1, b);
        }
      }
      i := i + 1;
    }
    assert bs[..i] == bs;
  }

  /** The keys that occur more than once, in the order of the map. */
  method RepeatedKeys(m: Map<nat>) returns (ks: seq<Blob>)
    ensures Increasing(ks)
    ensures forall k :: k in ks <==> Get(m, k).Some? && Get(m, k).value > 1
  {
    ks := [];
    var i := 0;
    while i < |m|
      invariant 0 <= i <= |m|
      invariant Increasing(ks)
      invariant forall k :: k in ks ==> exists j :: 0 <= j < i && m[j].0 == k && m[j].1 > 1
      invariant forall j :: 0 <= j < i && m[j].1 > 1 ==> m[j].0 in ks
    {
      if m[i].1 > 1 {
        forall k | k in ks
          ensures Less(k, m[i].0)
        {
          var j :| 0 <= j < i && m[j].0 == k && m[j].1 > 1;
          assert Less(Keys(m)[j], Keys(m)[i]);
        }
        ks := ks + [m[i].0];
      }
      i := i + 1;
    }
    forall k
      ensures k in ks <==> Get(m, k).Some? && Get(m, k).value > 1
    {
      GetKeys(m, k);
      if k in ks {
        var j :| 0 <= j < |m| && m[j].0 == k && m[j].1 > 1;
        GetEntry(m, j);
      } else if Get(m, k).Some? {
        var j :| 0 <= j < |m| && Keys(m)[j] == k;
        GetEntry(m, j);
      }
    }
  }

  ghost predicate Ascending(bs: seq<Blob>, s: seq<Blob>) {
    forall i, j :: 0 <= i < j < |s| ==> Before(bs, s[j], s[i])
  }

  ghost predicate CountsFor(m: Map<nat>, bs: seq<Blob>, s: seq<Blob>) {
    forall b :: b in s ==> Get(m, b) == Some(Count(bs, b))
  }

  /** One insertion of the stable sort: `x` goes after every element whose key is not greater. */
  method InsertStable(sorted: seq<Blob>, x: Blob, m: Map<nat>, ghost bs: seq<Blob>) returns (r: seq<Blob>)
    requires Ascending(bs, sorted) && CountsFor(m, bs, sorted + [x])
    requires forall b :: b in sorted ==> Less(b, x)
    ensures Ascending(bs, r) && multiset(r) == multiset(sorted) + multiset{x}
  {
    hide Less, Before, Ascending;
    var j := |sorted|;
    assert x in sorted + [x];
    var cx := Get(m, x).value;
    while j > 0 && (Rank(x) < Rank(sorted[j - 1]) || (Rank(x) == Rank(sorted[j - 1]) && cx < CountOf(m, sorted[j - 1])))
      invariant 0 <= j <= |sorted|
      invariant forall k :: j <= k < |sorted| ==> !KeyAtMost(bs, sorted[k], x)
    {
      assert sorted[j - 1] in sorted + [x];
      j := j - 1;
    }
    if j > 0 {
      assert sorted[j - 1] in sorted + [x];
    }
    r := sorted[..j] + [x] + sorted[j..];
    StableInsertion(bs, sorted, x, j);
    assert sorted == sorted[..j] + sorted[j..];
  }

  lemma StableInsertion(bs: seq<Blob>, sorted: seq<Blob>, x: Blob, j: nat)
    requires Ascending(bs, sorted) && j <= |sorted|
    requires forall b :: b in sorted ==> Less(b, x)
    requires j > 0 ==> KeyAtMost(bs, sorted[j - 1], x)
    requires forall k :: j <= k < |sorted| ==> !KeyAtMost(bs, sorted[k], x)
    ensures Ascending(bs, sorted[..j] + [x] + sorted[j..])
  {
    var r := sorted[..j] + [x] + sorted[j..];
    forall k | 0 <= k < j
      ensures Before(bs, x, sorted[k])
    {
      assert sorted[k] in sorted;
      if k < j - 1 {
        assert Before(bs, sorted[j - 1], sorted[k]);
      }
    }
    forall i, k | 0 <= i < k < |r|
      ensures Before(bs, r[k], r[i])
    {
      var si, sk := if i < j then i else i - 1, if k < j then k else k - 1;
      assert i != j ==> r[i] == sorted[si];
      assert k != j ==> r[k] == sorted[sk];
      if i != j && k != j {
        assert Before(bs, sorted[sk], sorted[si]);
      }
    }
  }

  function CountOf(m: Map<nat>, b: Blob): nat {
    var v := Get(m, b);
    if v.Some? then v.value else 0
  }

  /** `sort_by_key`. */
  method SortByKey(ks: seq<Blob>, m: Map<nat>, ghost bs: seq<Blob>) returns (sorted: seq<Blob>)
    requires Increasing(ks) && CountsFor(m, bs, ks)
    ensures Ascending(bs, sorted) && multiset(sorted) == multiset(ks)
  {
    sorted := [];
    var i := 0;
    while i < |ks|
      invariant 0 <= i <= |ks|
      invariant Ascending(bs, sorted) && multiset(sorted) == multiset(ks[..i])
    {
      forall b | b in sorted
        ensures Less(b, ks[i]) && b in ks
      {
        assert b in multiset(sorted);
      }
      sorted := InsertStable(sorted, ks[i], m, bs);
      assert ks[..i + 1] == ks[..i] + [ks[i]];
      i := i + 1;
    }
    assert ks[..i] == ks;
  }

  function Reverse(s: seq<Blob>): (r: seq<Blob>)
    ensures |r| == |s| && forall i :: 0 <= i < |s| ==> r[i] == s[|s| - 1 - i]
  {
    seq(|s|, i requires 0 <= i < |s| => s[|s| - 1 - i])
  }

  /** The index as the encoder builds it. */
  method BuildIndex(bs: seq<Blob>) returns (idx: seq<Blob>)
    ensures IsIndex(idx, bs)
  {
    var m := CountBlobs(bs);
    var ks := RepeatedKeys(m);
    var sorted := SortByKey(ks, m, bs);
    idx := Reverse(sorted);
    forall b
      ensures b in idx <==> b != [] && Count(bs, b) > 1
    {
      assert b in sorted <==> b in multiset(sorted);
      assert b in ks <==> b in multiset(ks);
      if b in sorted {
        var i :| 0 <= i < |sorted| && sorted[i] == b;
        assert idx[|idx| - 1 - i] == b;
      }
      assert b in bs <==> b in multiset(bs);
    }
  }

  /** The position of every blob of the index. */
  method ReverseIndex(idx: seq<Blob>) returns (rev: Map<nat>)
    requires Distinct(idx)
    ensures forall b :: Get(rev, b) == if b in idx then Some(PositionOf(idx, b)) else None
  {
    rev := [];
    var i: nat := 0;
    while i < |idx|
      invariant 0 <= i <= |idx|
      invariant forall b :: Get(rev, b).Some? <==> b in idx[..i]
      invariant forall j :: 0 <= j < i ==> Get(rev, idx[j]) == Some(j)
    {
      ghost var was := rev;
      InsertIncreasing(rev, idx[i], i);
      rev := Insert(rev, idx[i], i);
      forall b
        ensures Get(rev, b) == if b == idx[i] then Some(i) else Get(was, b)
      {
        InsertGet(was, idx[i], i, b);
      }
      assert idx[..i + 1] == idx[..i] + [idx[i]];
      i := i + 1;
    }
    assert idx[..i] == idx;
  }

  /** The count and the entries of the index. */
  method EncodeIndex(index: seq<Blob>, buf: array<byte>) returns (r: Option<seq<byte>>)
    requires buf.Length == 4
    modifies buf
    ensures r.Some? <==> FitsIndex(index)
    ensures r.Some? ==> r.value == Code(|index|) + PrintIndex(index)
  {
    hide Code;
    var start := EncodeVlq(|index|, buf);
    if start.None? {
      return None;
    }
    var out := buf[start.value..];
    var i := 0;
    while i < |index|
      invariant 0 <= i <= |index|
      invariant forall k :: 0 <= k < i ==> |index[k]| <= MAX
      invariant out == Code(|index|) + PrintIndex(index[..i])
    {
      start := EncodeVlq(|index[i]|, buf);
      if start.None? {
        return None;
      }
      PrintIndexAppend(index[..i], index[i]);
      assert index[..i + 1] == index[..i] + [index[i]];
      out := out + buf[start.value..];
      out := out + index[i];
      i := i + 1;
    }
    assert index[..i] == index;
    return Some(out);
  }

  /** The entry of one blob. */
  method EncodeEntry(blob: Blob, rev: Map<nat>, buf: array<byte>, ghost idx: seq<Blob>) returns (r: Option<seq<byte>>)
    requires buf.Length == 4
    requires Get(rev, blob) == if blob in idx then Some(PositionOf(idx, blob)) else None
    modifies buf
    ensures r.Some? <==> FitsEntry(EntryFor(idx, blob), |idx|)
    ensures r.Some? ==> r.value == PrintEntry(EntryFor(idx, blob))
  {
    hide Code, PositionOf, Get;
    var dup: Option<nat> := Get(rev, blob);
    var n := if dup.Some? then 2 * dup.value + 1 else 2 * |blob|;
    var start := EncodeVlq(n, buf);
    if start.None? {
      return None;
    }
    var out := buf[start.value..];
    if dup.None? {
      out := out + blob;
    } else {
      assert out + [] == out;
    }
    return Some(out);
  }

  /** One entry per blob. */
  method EncodeBody(bs: seq<Blob>, rev: Map<nat>, buf: array<byte>, ghost idx: seq<Blob>) returns (r: Option<seq<byte>>)
    requires buf.Length == 4
    requires forall b :: Get(rev, b) == if b in idx then Some(PositionOf(idx, b)) else None
    modifies buf
    ensures r.Some? <==> forall i :: 0 <= i < |bs| ==> FitsEntry(EntriesFor(idx, bs)[i], |idx|)
    ensures r.Some? ==> r.value == PrintBody(EntriesFor(idx, bs))
  {
    assert PrintBody([]) == [];
    hide PrintBody, PrintEntry, FitsEntry, EntryFor, PositionOf, Get;
    ghost var es := EntriesFor(idx, bs);
    var out: seq<byte> := [];
    var i := 0;
    assert es[..0] == [];
    while i < |bs|
      invariant 0 <= i <= |bs|
      invariant forall k :: 0 <= k < i ==> FitsEntry(es[k], |idx|)
      invariant out == PrintBody(es[..i])
    {
      PrintBodyAppend(es[..i], es[i]);
      assert es[..i + 1] == es[..i] + [es[i]];
      var entry := EncodeEntry(bs[i], rev, buf, idx);
      if entry.None? {
        return None;
      }
      out := out + entry.value;
      i := i + 1;
    }
    assert es[..i] == es;
    return Some(out);
  }

  /** `encode_blobs`: the encoded data and the number of index entries; nothing when a number is
      too big, where the encoder panics. */
  method EncodeBlobs(bs: seq<Blob>) returns (r: Option<(seq<byte>, nat)>)
    ensures exists idx :: IsIndex(idx, bs) && EncodedAs(r, idx, bs)
  {
    var index := BuildIndex(bs);
    IndexDistinct(index, bs);
    var rev := ReverseIndex(index);
    var buf := new byte[4](_ => 0);
    var head := EncodeIndex(index, buf);
    if head.None? {
      assert EncodedAs(None, index, bs);
      return None;
    }
    var body := EncodeBody(bs, rev, buf, index);
    r := if body.Some? then Some((head.value + body.value, |index|)) else None;
    assert EncodedAs(r, index, bs);
  }

  /** The printed store with its number of index entries, or nothing if a number does not fit. */
  predicate EncodedAs(r: Option<(seq<byte>, nat)>, idx: seq<Blob>, bs: seq<Blob>) {
    && (r.Some? <==> FitsStore(idx, EntriesFor(idx, bs)))
    && (r.Some? ==> r.value == (PrintStore(idx, EntriesFor(idx, bs)), |idx|))
  }

  /** Exactly which lists can be encoded. */
  lemma EncodableIff(bs: seq<Blob>, idx: seq<Blob>)
    requires IsIndex(idx, bs)
    ensures FitsStore(idx, EntriesFor(idx, bs)) <==> Encodable(bs)
  {
    IndexIsRepeated(bs, idx);
    SizesFit(bs, idx);
  }

  lemma SizesFit(bs: seq<Blob>, idx: seq<Blob>)
    requires IsIndex(idx, bs)
    ensures FitsStore(idx, EntriesFor(idx, bs)) <==>
              |idx| <= (MAX + 1) / 2 && forall b :: b in bs ==> |b| <= if b in idx then MAX else MAX / 2
  {
    var es := EntriesFor(idx, bs);
    IndexDistinct(idx, bs);
    if FitsStore(idx, es) {
      if idx != [] {
        var b := idx[|idx| - 1];
        assert b in idx && b in multiset(bs);
        var i :| 0 <= i < |bs| && bs[i] == b;
        assert es[i] == Ref(|idx| - 1) && FitsEntry(es[i], |idx|);
      }
      forall b | b in bs
        ensures |b| <= if b in idx then MAX else MAX / 2
      {
        var i :| 0 <= i < |bs| && bs[i] == b;
        assert FitsEntry(es[i], |idx|);
      }
    }
    if |idx| <= (MAX + 1) / 2 && forall b :: b in bs ==> |b| <= if b in idx then MAX else MAX / 2 {
      forall i | 0 <= i < |idx|
        ensures |idx[i]| <= MAX
      {
        assert idx[i] in idx && idx[i] in multiset(bs);
      }
    }
  }

  function Repeated(bs: seq<Blob>): set<Blob> {
    set b | b in bs && b != [] && Count(bs, b) > 1
  }

  /** Few enough repeated blobs, and every blob short enough for its number. */
  predicate Encodable(bs: seq<Blob>) {
    && |Repeated(bs)| <= (MAX + 1) / 2
    && forall b :: b in bs ==> |b| <= if b in Repeated(bs) then MAX else MAX / 2
  }

  lemma {:induction false} DistinctCount(s: seq<Blob>, all: set<Blob>)
    requires Distinct(s) && forall b :: b in s <==> b in all
    ensures |all| == |s|
    decreases |s|
  {
    if s == [] {
      assert all == {};
    } else {
      assert s[0] in s;
      assert forall b :: b in s[1..] <==> b in all - {s[0]};
      DistinctCount(s[1..], all - {s[0]});
    }
  }

  lemma IndexIsRepeated(bs: seq<Blob>, idx: seq<Blob>)
    requires IsIndex(idx, bs)
    ensures |idx| == |Repeated(bs)| && forall b :: b in idx <==> b in Repeated(bs)
  {
    IndexDistinct(idx, bs);
    forall b
      ensures b in idx <==> b in Repeated(bs)
    {
      assert b in bs <==> b in multiset(bs);
    }
    DistinctCount(idx, Repeated(bs));
  }

  lemma EntriesGiveBlobs(bs: seq<Blob>, idx: seq<Blob>)
    requires FitsStore(idx, EntriesFor(idx, bs))
    ensures forall i :: 0 <= i < |bs| ==> BlobOf(idx, EntriesFor(idx, bs)[i]) == bs[i]
  {
  }

  /** The round trip: whatever can be encoded is read back in order, empty and repeated blobs
      included, and then the iterator stays at the end. Blobs of at most `MAX / 2` bytes can always
      be encoded, unless there are more than `MAX` of them. */
  method RoundTrip(bs: seq<Blob>, calls: nat) returns (encoded: Option<(seq<byte>, nat)>, items: seq<Item>)
    ensures encoded.Some? ==> OpenStore(encoded.value.0).Open? && |OpenStore(encoded.value.0).dedup| == encoded.value.1
    ensures encoded.Some? ==> |items| == calls
    ensures encoded.Some? ==> forall t :: 0 <= t < calls ==> items[t] == if t < |bs| then Yields(bs[t]) else End
    ensures encoded.Some? <==> Encodable(bs)
    ensures (forall b :: b in bs ==> |b| <= MAX / 2) && |bs| <= MAX ==> encoded.Some?
  {
    encoded := EncodeBlobs(bs);
    ghost var idx :| IsIndex(idx, bs) && EncodedAs(encoded, idx, bs);
    items := [];
    EncodableIff(bs, idx);
    IndexIsShort(bs, idx);
    IndexIsRepeated(bs, idx);
    if encoded.Some? {
      EntriesGiveBlobs(bs, idx);
      OpenPrinted(idx, EntriesFor(idx, bs));
      items := RunBlobs(encoded.value.0, calls, idx, EntriesFor(idx, bs));
    }
  }

  /** Every blob of the index occurs twice, so the index is at most half as long as the list. */
  lemma IndexIsShort(bs: seq<Blob>, idx: seq<Blob>)
    requires IsIndex(idx, bs)
    ensures 2 * |idx| <= |bs|
  {
    IndexDistinct(idx, bs);
    TwiceEach(idx, multiset(bs));
    assert |multiset(bs)| == |bs|;
  }

  lemma {:induction false} TwiceEach(idx: seq<Blob>, all: multiset<Blob>)
    requires Distinct(idx) && forall b :: b in idx ==> all[b] > 1
    ensures 2 * |idx| <= |all|
  {
    if idx != [] {
      var b := idx[0];
      assert b in idx;
      var less := all[b := 0];
      assert |less| == |all| - all[b];
      forall c | c in idx[1..]
        ensures less[c] > 1
      {
        assert c in idx && c != b;
      }
      TwiceEach(idx[1..], less);
    }
  }
}
