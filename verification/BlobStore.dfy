/** The .blb storage format: its printer, and what reading a printed store gives back. */
module BlobStore {
  import opened Common
  import opened Vlq

  type Blob = seq<byte>

  /** A stored blob: a reference into the index, or the bytes themselves. */
  datatype Entry = Ref(index: nat) | Literal(blob: Blob)

  function Number(e: Entry): nat {
    match e
    case Ref(j) => 2 * j + 1
    case Literal(b) => 2 * |b|
  }

  predicate FitsEntry(e: Entry, indexLen: nat) {
    Number(e) <= MAX && (e.Ref? ==> e.index < indexLen)
  }

  predicate FitsIndex(idx: seq<Blob>) {
    |idx| <= MAX && forall i :: 0 <= i < |idx| ==> |idx[i]| <= MAX
  }

  predicate FitsStore(idx: seq<Blob>, es: seq<Entry>) {
    FitsIndex(idx) && forall i :: 0 <= i < |es| ==> FitsEntry(es[i], |idx|)
  }

  function PrintEntry(e: Entry): seq<byte> {
    Code(Number(e)) + if e.Literal? then e.blob else []
  }

  function PrintBody(es: seq<Entry>): seq<byte> {
    if es == [] then [] else PrintEntry(es[0]) + PrintBody(es[1..])
  }

  function PrintIndex(idx: seq<Blob>): seq<byte> {
    if idx == [] then [] else Code(|idx[0]|) + idx[0] + PrintIndex(idx[1..])
  }

  function PrintStore(idx: seq<Blob>, es: seq<Entry>): seq<byte> {
    Code(|idx|) + PrintIndex(idx) + PrintBody(es)
  }

  function BlobOf(idx: seq<Blob>, e: Entry): Blob
    requires FitsEntry(e, |idx|)
  {
    if e.Ref? then idx[e.index] else e.blob
  }

  lemma {:induction false} PrintBodyAppend(es: seq<Entry>, e: Entry)
    ensures PrintBody(es + [e]) == PrintBody(es) + PrintEntry(e)
  {
    hide PrintEntry;
    if es == [] {
      assert es + [e] == [e] && [e][1..] == [];
      assert PrintEntry(e) + [] == PrintEntry(e) == [] + PrintEntry(e);
    } else {
      PrintBodyAppend(es[1..], e);
      assert (es + [e])[0] == es[0] && (es + [e])[1..] == es[1..] + [e];
      Assoc(PrintEntry(es[0]), PrintBody(es[1..]), PrintEntry(e));
    }
  }

  lemma {:induction false} PrintIndexAppend(idx: seq<Blob>, b: Blob)
    ensures PrintIndex(idx + [b]) == PrintIndex(idx) + Code(|b|) + b
  {
    hide Code;
    if idx == [] {
      assert idx + [b] == [b] && [b][1..] == [];
    } else {
      PrintIndexAppend(idx[1..], b);
      assert (idx + [b])[1..] == idx[1..] + [b];
    }
  }

  /** The layout of an entry: twice the index plus one, or twice the length and then the bytes. Up to
      63 this is one byte. */
  lemma EntryLayout(j: nat, b: Blob)
    ensures PrintEntry(Ref(j)) == Code(2 * j + 1) && PrintEntry(Literal(b)) == Code(2 * |b|) + b
    ensures j < 64 ==> PrintEntry(Ref(j)) == [2 * j + 1]
    ensures |b| < 64 ==> PrintEntry(Literal(b)) == [2 * |b|] + b
  {
    OneByteCode(2 * j + 1);
    OneByteCode(2 * |b|);
    hide Code;
    assert Code(2 * j + 1) + [] == Code(2 * j + 1);
  }

  lemma OneByteCode(v: nat)
    ensures v < 128 ==> Code(v) == [v]
  {
  }

  // ----- reading -----

  datatype Opened = Open(dedup: seq<Blob>, body: seq<byte>) | Failed(error: Error) | OpenPanics

  /** Reads `n` index entries at `pos`; a number that cannot be read or a blob that runs past the
      end panics. */
  function ReadIndex(data: seq<byte>, pos: nat, n: nat): Option<(seq<Blob>, nat)>
    decreases n
  {
    if n == 0 then Some(([], pos))
    else
      var (m, start) := Read(data, pos);
      if m.Err? || start + m.value > |data| then None
      else
        var rest := ReadIndex(data, start + m.value, n - 1);
        if rest.None? then None
        else Some(([data[start..start + m.value]] + rest.value.0, rest.value.1))
  }

  /** What `BlobIterator::new` returns. */
  function OpenStore(data: seq<byte>): Opened {
    var (n, pos) := Read(data, 0);
    if n.Err? then Failed(n.error)
    else
      var index := ReadIndex(data, pos, n.value);
      if index.None? || index.value.1 > |data| then OpenPanics
      else Open(index.value.0, data[index.value.1..])
  }

  datatype Item = Yields(blob: Blob) | Fails(error: Error) | End | Panics

  /** One call of `next`: the item and the position after it. */
  function NextItem(data: seq<byte>, dedup: seq<Blob>, pos: nat): (Item, nat) {
    if pos >= |data| then (End, pos)
    else
      var (val, start) := Read(data, pos);
      if val.Err? then (Panics, start)
      else
        var v := val.value / 2;
        if val.value % 2 != 0 then
          if v >= |dedup| then (Fails(InvalidIndex), |data|) else (Yields(dedup[v]), start)
        else if start + v > |data| then (Fails(UnexpectedEnd), |data|)
        else (Yields(data[start..start + v]), start + v)
  }

  lemma ReadPrinted(data: seq<byte>, pos: nat, v: nat)
    requires v <= MAX && pos + |Code(v)| <= |data| && data[pos..pos + |Code(v)|] == Code(v)
    ensures Read(data, pos) == (Ok(v), pos + |Code(v)|)
  {
    CodeDenotes(v);
    ReadCode(data, pos, Code(v));
  }

  lemma Slice(data: seq<byte>, pos: nat, a: seq<byte>, tail: seq<byte>)
    requires pos <= |data| && data[pos..] == a + tail
    ensures pos + |a| <= |data| && data[pos..pos + |a|] == a && data[pos + |a|..] == tail
  {
    var d := data[pos..];
    assert data[pos..pos + |a|] == d[..|a|] && data[pos + |a|..] == d[|a|..];
  }

  lemma SplitIndex(idx: seq<Blob>, tail: seq<byte>)
    requires idx != []
    ensures PrintIndex(idx) + tail == Code(|idx[0]|) + (idx[0] + (PrintIndex(idx[1..]) + tail))
  {
    hide Code;
    Assoc(Code(|idx[0]|), idx[0], PrintIndex(idx[1..]));
    Assoc(Code(|idx[0]|), idx[0] + PrintIndex(idx[1..]), tail);
    Assoc(idx[0], PrintIndex(idx[1..]), tail);
  }

  lemma {:induction false} IndexRead(data: seq<byte>, pos: nat, idx: seq<Blob>, tail: seq<byte>)
    requires FitsIndex(idx)
    requires pos <= |data| && data[pos..] == PrintIndex(idx) + tail
    ensures ReadIndex(data, pos, |idx|) == Some((idx, pos + |PrintIndex(idx)|))
    decreases |idx|
  {
    hide Code, Read;
    if idx != [] {
      var b, more := idx[0], PrintIndex(idx[1..]) + tail;
      var c := Code(|b|);
      SplitIndex(idx, tail);
      Slice(data, pos, c, b + more);
      Slice(data, pos + |c|, b, more);
      ReadPrinted(data, pos, |b|);
      var next := pos + |c| + |b|;
      IndexRead(data, next, idx[1..], tail);
      assert idx == [b] + idx[1..];
      assert data[pos + |c|..next] == b;
      assert |PrintIndex(idx)| == |c| + |b| + |PrintIndex(idx[1..])|;
    }
  }

  /** Opening a printed store recovers its index and leaves its entries. */
  lemma OpenPrinted(idx: seq<Blob>, es: seq<Entry>)
    requires FitsIndex(idx)
    ensures OpenStore(PrintStore(idx, es)) == Open(idx, PrintBody(es))
  {
    var data, c := PrintStore(idx, es), Code(|idx|);
    var more := PrintIndex(idx) + PrintBody(es);
    assert data[0..] == c + more;
    Slice(data, 0, c, more);
    ReadPrinted(data, 0, |idx|);
    IndexRead(data, |c|, idx, PrintBody(es));
    Slice(data, |c|, PrintIndex(idx), PrintBody(es));
  }

  lemma NextItemIs(data: seq<byte>, idx: seq<Blob>, pos: nat, e: Entry, start: nat)
    requires pos < |data| && Read(data, pos) == (Ok(Number(e)), start) && FitsEntry(e, |idx|)
    requires e.Literal? ==> start + |e.blob| <= |data| && data[start..start + |e.blob|] == e.blob
    ensures NextItem(data, idx, pos) == (Yields(BlobOf(idx, e)), start + if e.Literal? then |e.blob| else 0)
  {
    hide Read;
    if e.Ref? {
      assert Number(e) % 2 == 1 && Number(e) / 2 == e.index;
    } else {
      assert Number(e) % 2 == 0 && Number(e) / 2 == |e.blob|;
    }
  }

  /** Reading at a printed entry returns its blob and moves past it. */
  lemma NextPrinted(data: seq<byte>, idx: seq<Blob>, pos: nat, es: seq<Entry>)
    requires pos <= |data| && data[pos..] == PrintBody(es)
    requires es != [] && FitsEntry(es[0], |idx|)
    ensures NextItem(data, idx, pos) == (Yields(BlobOf(idx, es[0])), pos + |PrintEntry(es[0])|)
    ensures pos < pos + |PrintEntry(es[0])| <= |data|
    ensures data[pos + |PrintEntry(es[0])|..] == PrintBody(es[1..])
  {
    hide NextItem, PrintEntry, FitsEntry, Read;
    EntryRead(data, idx, pos, es[0], PrintBody(es[1..]));
  }

  lemma EntryRead(data: seq<byte>, idx: seq<Blob>, pos: nat, e: Entry, more: seq<byte>)
    requires pos <= |data| && data[pos..] == PrintEntry(e) + more && FitsEntry(e, |idx|)
    ensures NextItem(data, idx, pos) == (Yields(BlobOf(idx, e)), pos + |PrintEntry(e)|)
    ensures pos < pos + |PrintEntry(e)| <= |data| && data[pos + |PrintEntry(e)|..] == more
  {
    hide Code, Read, NextItem;
    var c, b := Code(Number(e)), if e.Literal? then e.blob else [];
    Slice(data, pos, PrintEntry(e), more);
    Assoc(c, b, more);
    Slice(data, pos, c, b + more);
    Slice(data, pos + |c|, b, more);
    ReadPrinted(data, pos, Number(e));
    NextItemIs(data, idx, pos, e, pos + |c|);
  }

  // ----- reading accepts nothing but printed stores -----

  lemma ReadIsPrinted(data: seq<byte>, pos: nat)
    requires Read(data, pos).0.Ok?
    ensures var (v, next) := Read(data, pos);
            pos < next <= |data| && v.value <= MAX && data[pos..next] == Code(v.value)
  {
    ReadSpec(data, pos);
    DenotesCode(data[pos..Read(data, pos).1]);
  }

  lemma {:induction false} IndexIsPrinted(data: seq<byte>, pos: nat, n: nat)
    requires ReadIndex(data, pos, n).Some? && pos <= |data|
    ensures var (idx, next) := ReadIndex(data, pos, n).value;
            && |idx| == n && pos <= next <= |data|
            && (forall i :: 0 <= i < n ==> |idx[i]| <= MAX)
            && data[pos..next] == PrintIndex(idx)
    decreases n
  {
    hide Code, Read;
    if n > 0 {
      ReadIsPrinted(data, pos);
      var (m, start) := Read(data, pos);
      var next := start + m.value;
      var b := data[start..next];
      IndexIsPrinted(data, next, n - 1);
      var (rest, end) := ReadIndex(data, next, n - 1).value;
      JoinParts(data, pos, start, next, end);
      PrintIndexCons(b, rest);
    }
  }

  lemma JoinParts(data: seq<byte>, a: nat, b: nat, c: nat, d: nat)
    requires a <= b <= c <= d <= |data|
    ensures data[a..d] == data[a..b] + data[b..c] + data[c..d]
  {
  }

  lemma PrintIndexCons(b: Blob, rest: seq<Blob>)
    ensures PrintIndex([b] + rest) == Code(|b|) + b + PrintIndex(rest)
  {
    hide Code;
    assert ([b] + rest)[1..] == rest;
  }

  /** A store that opens is a printed index followed by the body. */
  lemma OpenIsPrinted(data: seq<byte>)
    requires OpenStore(data).Open?
    ensures FitsIndex(OpenStore(data).dedup)
    ensures data == Code(|OpenStore(data).dedup|) + PrintIndex(OpenStore(data).dedup) + OpenStore(data).body
  {
    hide Code, Read;
    ReadIsPrinted(data, 0);
    var (n, pos) := Read(data, 0);
    IndexIsPrinted(data, pos, n.value);
    var (idx, next) := ReadIndex(data, pos, n.value).value;
    JoinParts(data, 0, pos, next, |data|);
    assert data == data[0..|data|];
  }

  /** A call that returns a blob has consumed exactly one printed entry for it. */
  lemma NextIsPrinted(data: seq<byte>, idx: seq<Blob>, pos: nat) returns (e: Entry)
    requires NextItem(data, idx, pos).0.Yields?
    ensures FitsEntry(e, |idx|) && BlobOf(idx, e) == NextItem(data, idx, pos).0.blob
    ensures pos < NextItem(data, idx, pos).1 <= |data|
    ensures data[pos..NextItem(data, idx, pos).1] == PrintEntry(e)
  {
    hide Read, Code;
    ReadIsPrinted(data, pos);
    var (val, start) := Read(data, pos);
    var v := val.value / 2;
    assert Code(val.value) + [] == Code(val.value);
    if val.value % 2 != 0 {
      e := Ref(v);
    } else {
      e := Literal(data[start..start + v]);
      assert data[pos..start + v] == data[pos..start] + data[start..start + v];
    }
  }
}
