/** Buffers with an input and an output side, which are the same memory or do not overlap. */
module InOut {
  import opened Common
  import opened BitStrings
  import opened BlockSplit
  import opened Padding

  /** `len` items of `size` bytes each, from byte `inAt` of `inp` and to byte `outAt` of `out`. */
  datatype InOutBuf = InOutBuf(inp: array<byte>, out: array<byte>, inAt: nat, outAt: nat, size: nat, len: nat) {

    function Bytes(): nat { len * size }

    /** The pointers are in range, and equal or apart. */
    predicate Valid() {
      && size > 0
      && inAt + Bytes() <= inp.Length && outAt + Bytes() <= out.Length
      && (inp != out || inAt == outAt || inAt + Bytes() <= outAt || outAt + Bytes() <= inAt)
    }

    function Input(): seq<byte>
      requires Valid()
      reads inp
    {
      inp[inAt..inAt + Bytes()]
    }
  }

  /** `split_at`. */
  function SplitAt(b: InOutBuf, mid: nat): (InOutBuf, InOutBuf)
    requires b.Valid() && mid <= b.len
  {
    (b.(len := mid), b.(inAt := b.inAt + mid * b.size, outAt := b.outAt + mid * b.size, len := b.len - mid))
  }

  /** `into_chunks` of a byte buffer. */
  function IntoChunks(b: InOutBuf, n: nat): (InOutBuf, InOutBuf)
    requires b.Valid() && b.size == 1 && n > 0
  {
    var chunks := b.len / n;
    var tailPos := n * chunks;
    assert tailPos <= b.len;
    (b.(size := n, len := chunks), b.(inAt := b.inAt + tailPos, outAt := b.outAt + tailPos, len := b.len - tailPos))
  }

  /** Both ways to take a buffer apart give valid buffers that follow each other. */
  lemma SplitCovers(b: InOutBuf, mid: nat)
    requires b.Valid() && mid <= b.len
    ensures var (l, r) := SplitAt(b, mid);
            && l.Valid() && r.Valid() && l.Bytes() == mid * b.size && l.Bytes() + r.Bytes() == b.Bytes()
            && l.inp == r.inp == b.inp && l.out == r.out == b.out && l.size == r.size == b.size
            && l.inAt == b.inAt && r.inAt == l.inAt + l.Bytes()
            && l.outAt == b.outAt && r.outAt == l.outAt + l.Bytes()
  {
    MulSplit(mid, b.len, b.size);
  }

  lemma ChunksCover(b: InOutBuf, n: nat)
    requires b.Valid() && b.size == 1 && n > 0
    ensures var (c, t) := IntoChunks(b, n);
            && c.Valid() && t.Valid() && c.Bytes() + t.Bytes() == b.Bytes() && t.len < n
            && c.size == n && t.size == 1
            && c.inp == t.inp == b.inp && c.out == t.out == b.out
            && c.inAt == b.inAt && t.inAt == c.inAt + c.Bytes()
            && c.outAt == b.outAt && t.outAt == c.outAt + c.Bytes()
  {
    assert b.len == n * (b.len / n) + b.len % n;
    Commutes(n, b.len / n);
    var q := n * (b.len / n);
    assert q * 1 == q && (b.len - q) * 1 == b.len - q && b.len * 1 == b.len;
  }

  lemma MulSplit(a: nat, b: nat, c: nat)
    requires a <= b
    ensures a * c + (b - a) * c == b * c && 0 <= a * c && 0 <= (b - a) * c
  {
  }

  lemma Commutes(a: nat, b: nat)
    ensures a * b == b * a
  {
  }

  /** `InOutBufIter`: the byte offsets of the items, one after the other. */
  class InOutBufIter {
    const buf: InOutBuf
    var pos: nat

    constructor (buf: InOutBuf)
      ensures this.buf == buf && pos == 0
    {
      this.buf, this.pos := buf, 0;
    }

    method Next() returns (item: Option<(nat, nat)>)
      requires pos <= buf.len
      modifies this`pos
      ensures item == if old(pos) == buf.len then None
                      else Some((buf.inAt + old(pos) * buf.size, buf.outAt + old(pos) * buf.size))
      ensures pos == if item.None? then old(pos) else old(pos) + 1
    {
      if buf.len == pos {
        return None;
      }
      item := Some((buf.inAt + pos * buf.size, buf.outAt + pos * buf.size));
      pos := pos + 1;
    }
  }

  /** For every number of calls: the offsets of the items in order, and then nothing forever. */
  method AllItems(b: InOutBuf, calls: nat) returns (items: seq<Option<(nat, nat)>>)
    ensures |items| == calls
    ensures forall t :: 0 <= t < calls ==>
              items[t] == if t < b.len then Some((b.inAt + t * b.size, b.outAt + t * b.size)) else None
  {
    var it := new InOutBufIter(b);
    items := [];
    while |items| < calls
      invariant it.buf == b && |items| <= calls && it.pos == if |items| < b.len then |items| else b.len
      invariant forall t :: 0 <= t < |items| ==>
                  items[t] == if t < b.len then Some((b.inAt + t * b.size, b.outAt + t * b.size)) else None
    {
      var item := it.Next();
      items := items + [item];
    }
  }

  // ----- processing blocks -----

  type Cipher = Block -> Block

  ghost predicate KeepsSize(e: Cipher, bs: nat) {
    forall b: Block :: |b| == bs ==> |e(b)| == bs
  }

  /** Every whole block of `s`, sent through `e`. */
  function Process(e: Cipher, bs: nat, s: seq<byte>): seq<byte>
    requires bs > 0
    decreases |s|
  {
    if |s| < bs then [] else e(s[..bs]) + Process(e, bs, s[bs..])
  }

  /** Writes `e` of every input block to the output, block by block. The result is the same whether
      the two sides are one array or two. */
  method ProcessBlocks(b: InOutBuf, e: Cipher)
    requires b.Valid() && KeepsSize(e, b.size)
    modifies b.out
    ensures |Process(e, b.size, old(b.Input()))| == b.Bytes()
    ensures b.out[..] == old(b.out[..b.outAt]) + Process(e, b.size, old(b.Input())) + old(b.out[b.outAt + b.Bytes()..])
  {
    hide Process;
    ghost var m, was, outWas := b.Input(), b.inp[..], b.out[..];
    var it := new InOutBufIter(b);
    ghost var done: seq<byte> := [];
    assert m[0..] == m && [] + Process(e, b.size, m) == Process(e, b.size, m);
    while it.pos < b.len
      invariant it.buf == b && it.pos <= b.len && fresh(it)
      invariant |done| == it.pos * b.size <= b.Bytes()
      invariant Progress(b, e, m, outWas, b.out[..], done)
      invariant b.inp != b.out ==> b.inp[..] == was
    {
      NextFits(it.pos, b.len, b.size);
      var item := it.Next();
      var (i, o) := item.value;
      done := ProcessItem(b, e, i, o, m, was, outWas, done);
    }
    NothingLeft(e, b.size, m[|done|..]);
    assert done + [] == done;
  }

  /** One block: read it, write `e` of it. */
  method ProcessItem(b: InOutBuf, e: Cipher, i: nat, o: nat, ghost m: seq<byte>, ghost was: seq<byte>,
                     ghost outWas: seq<byte>, ghost done: seq<byte>)
    returns (ghost more: seq<byte>)
    requires b.Valid() && KeepsSize(e, b.size) && |done| + b.size <= b.Bytes()
    requires i == b.inAt + |done| && o == b.outAt + |done|
    requires |was| == b.inp.Length && |outWas| == b.out.Length && m == was[b.inAt..b.inAt + b.Bytes()]
    requires if b.inp == b.out then was == outWas else b.inp[..] == was
    requires Progress(b, e, m, outWas, b.out[..], done)
    modifies b.out
    ensures |more| == |done| + b.size && Progress(b, e, m, outWas, b.out[..], more)
    ensures b.inp != b.out ==> b.inp[..] == was
  {
    BlockUntouched(b, e, i, m, was, outWas, b.inp[..], b.out[..], done);
    ProgressStep(b, e, m, outWas, b.out[..], done);
    hide Progress;
    var block := b.inp[i..i + b.size];
    assert block == b.inp[..][i..i + b.size];
    CopyInto(b.out, o, e(block));
    more := done + e(block);
  }

  /** The next input block is still the one of the original message. */
  lemma BlockUntouched(b: InOutBuf, e: Cipher, i: nat, m: seq<byte>, was: seq<byte>, outWas: seq<byte>,
                       inNow: seq<byte>, outNow: seq<byte>, done: seq<byte>)
    requires b.Valid() && |done| + b.size <= b.Bytes() && i == b.inAt + |done|
    requires |was| == |inNow| == b.inp.Length && |outWas| == b.out.Length && m == was[b.inAt..b.inAt + b.Bytes()]
    requires if b.inp == b.out then was == outWas && inNow == outNow else inNow == was
    requires Progress(b, e, m, outWas, outNow, done)
    ensures inNow[i..i + b.size] == m[|done|..|done| + b.size]
  {
    hide Process;
    SubSlice(was, b.inAt, b.inAt + b.Bytes(), |done|, |done| + b.size);
    if b.inp == b.out {
      Ahead(was, b.outAt, done, |done|, i, b.size, b.inAt, b.Bytes());
    }
  }

  lemma SubSlice(s: seq<byte>, a: nat, b: nat, i: nat, j: nat)
    requires a <= b <= |s| && i <= j <= b - a
    ensures s[a..b][i..j] == s[a + i..a + j]
  {
    var t := s[a..b];
    assert forall k :: 0 <= k < j - i ==> t[i..j][k] == t[i + k] == s[a + i..a + j][k];
  }

  /** `done` has been written, and what it lacks is still to be processed. */
  ghost predicate Progress(b: InOutBuf, e: Cipher, m: seq<byte>, outWas: seq<byte>, now: seq<byte>, done: seq<byte>)
    requires b.size > 0
  {
    && |done| <= |m| && b.outAt + |done| <= |outWas|
    && now == outWas[..b.outAt] + done + outWas[b.outAt + |done|..]
    && done + Process(e, b.size, m[|done|..]) == Process(e, b.size, m)
  }

  lemma ProgressStep(b: InOutBuf, e: Cipher, m: seq<byte>, outWas: seq<byte>, now: seq<byte>, done: seq<byte>)
    requires b.size > 0 && KeepsSize(e, b.size) && Progress(b, e, m, outWas, now, done)
    requires |done| + b.size <= |m| && b.outAt + |m| <= |outWas|
    ensures var block := m[|done|..|done| + b.size];
            var at := b.outAt + |done|;
            |now| == |outWas| && |e(block)| == b.size
            && Progress(b, e, m, outWas, now[..at] + e(block) + now[at + b.size..], done + e(block))
  {
    hide Process;
    var off := |done|;
    var block := m[off..off + b.size];
    ProcessStep(e, b.size, m[off..]);
    assert m[off..][..b.size] == block && m[off..][b.size..] == m[off + b.size..];
    Assoc(done, e(block), Process(e, b.size, m[off + b.size..]));
    WriteNext(outWas, b.outAt, done, e(block));
  }

  lemma NextFits(pos: nat, len: nat, size: nat)
    requires pos < len
    ensures pos * size + size <= len * size && (pos + 1) * size == pos * size + size
  {
    StepUp(pos, len, size);
  }

  lemma ProcessStep(e: Cipher, bs: nat, s: seq<byte>)
    requires bs > 0 && |s| >= bs
    ensures Process(e, bs, s) == e(s[..bs]) + Process(e, bs, s[bs..])
  {
  }

  lemma NothingLeft(e: Cipher, bs: nat, s: seq<byte>)
    requires bs > 0 && |s| < bs
    ensures Process(e, bs, s) == []
  {
  }

  /** What lies ahead of the write position has not been overwritten. */
  lemma Ahead(was: seq<byte>, at: nat, done: seq<byte>, off: nat, i: nat, size: nat, inAt: nat, bytes: nat)
    requires at + bytes <= |was| && |done| == off && i == inAt + off && off + size <= bytes && inAt + bytes <= |was|
    requires inAt == at || inAt + bytes <= at || at + bytes <= inAt
    ensures (was[..at] + done + was[at + off..])[i..i + size] == was[i..i + size]
  {
    var now := was[..at] + done + was[at + off..];
    assert forall k :: 0 <= k < |was| && !(at <= k < at + off) ==> now[k] == was[k];
  }

  lemma WriteNext(was: seq<byte>, at: nat, done: seq<byte>, block: seq<byte>)
    requires at + |done| + |block| <= |was|
    ensures var now := was[..at] + done + was[at + |done|..];
            now[..at + |done|] + block + now[at + |done| + |block|..]
            == was[..at] + (done + block) + was[at + |done| + |block|..]
  {
    var now := was[..at] + done + was[at + |done|..];
    assert now[..at + |done|] == was[..at] + done;
    assert now[at + |done| + |block|..] == was[at + |done| + |block|..];
  }

  /** `s` has been written at `at`, and nothing else. */
  ghost predicate Written(was: seq<byte>, at: nat, s: seq<byte>, now: seq<byte>) {
    at + |s| <= |was| && now == was[..at] + s + was[at + |s|..]
  }

  lemma WrittenTwice(was: seq<byte>, at: nat, a: seq<byte>, half: seq<byte>, c: seq<byte>, now: seq<byte>)
    requires Written(was, at, a, half) && Written(half, at + |a|, c, now)
    ensures Written(was, at, a + c, now)
  {
    WriteNext(was, at, a, c);
  }

  method ProcessPart(b: InOutBuf, e: Cipher, ghost input: seq<byte>)
    requires b.Valid() && KeepsSize(e, b.size) && input == b.inp[..][b.inAt..b.inAt + b.Bytes()]
    modifies b.out
    ensures |Process(e, b.size, input)| == b.Bytes()
    ensures Written(old(b.out[..]), b.outAt, Process(e, b.size, input), b.out[..])
    ensures b.inp != b.out ==> b.inp[..] == old(b.inp[..])
  {
    hide Process;
    assert b.Input() == input;
    ProcessBlocks(b, e);
  }

  /** Processing the two parts of a split buffer one after the other is processing the buffer: the
      first part never overwrites input of the second. */
  method ProcessInTwo(b: InOutBuf, mid: nat, e: Cipher)
    requires b.Valid() && KeepsSize(e, b.size) && mid <= b.len
    modifies b.out
    ensures Written(old(b.out[..]), b.outAt, Process(e, b.size, old(b.Input())), b.out[..])
  {
    hide Process, SplitAt, InOutBuf.Bytes, KeepsSize, Written;
    SplitCovers(b, mid);
    var (l, r) := SplitAt(b, mid);
    ghost var was, inWas := b.out[..], b.inp[..];
    ghost var first, second := InputParts(b, l.Bytes(), inWas);
    ProcessAppend(e, b.size, first, mid, second);
    ProcessPart(l, e, first);
    SecondUntouched(b, l.Bytes(), was, inWas, b.out[..], b.inp[..], Process(e, b.size, first));
    ghost var half := b.out[..];
    ProcessPart(r, e, second);
    WrittenTwice(was, b.outAt, Process(e, b.size, first), half, Process(e, b.size, second), b.out[..]);
  }

  lemma InputParts(b: InOutBuf, k: nat, now: seq<byte>) returns (first: seq<byte>, second: seq<byte>)
    requires b.Valid() && k <= b.Bytes() && now == b.inp[..]
    ensures first == now[b.inAt..b.inAt + k] && second == now[b.inAt + k..b.inAt + b.Bytes()]
    ensures b.Input() == first + second && |first| == k
  {
    hide InOutBuf.Bytes;
    first, second := now[b.inAt..b.inAt + k], now[b.inAt + k..b.inAt + b.Bytes()];
    assert b.Input() == now[b.inAt..b.inAt + b.Bytes()];
  }

  lemma SecondUntouched(b: InOutBuf, k: nat, was: seq<byte>, inWas: seq<byte>, now: seq<byte>, inNow: seq<byte>,
                        a: seq<byte>)
    requires b.Valid() && k <= b.Bytes() && |a| == k && |was| == b.out.Length && |inWas| == b.inp.Length == |inNow|
    requires Written(was, b.outAt, a, now)
    requires if b.inp == b.out then inWas == was && inNow == now else inNow == inWas
    ensures inNow[b.inAt + k..b.inAt + b.Bytes()] == inWas[b.inAt + k..b.inAt + b.Bytes()]
  {
    hide InOutBuf.Bytes;
    if b.inp == b.out {
      Ahead(was, b.outAt, a, k, b.inAt + k, b.Bytes() - k, b.inAt, b.Bytes());
    }
  }

  // ----- reserved space for padding -----

  /** `InOutBufReserved`: a message of `inLen` bytes, and at least as much room for the output. */
  datatype Reserved = Reserved(inp: array<byte>, out: array<byte>, inLen: nat) {
    predicate Valid() { inLen <= inp.Length && inLen <= out.Length }

    function Message(): seq<byte>
      requires Valid()
      reads inp
    {
      inp[..inLen]
    }
  }

  function FromMutSlice(buf: array<byte>, msgLen: nat): (r: Option<Reserved>)
    ensures r.Some? <==> msgLen <= buf.Length
    ensures r.Some? ==> r.value.Valid() && r.value.inp == r.value.out == buf && r.value.inLen == msgLen
  {
    if msgLen > buf.Length then None else Some(Reserved(buf, buf, msgLen))
  }

  function FromSlices(inBuf: array<byte>, outBuf: array<byte>): (r: Option<Reserved>)
    ensures r.Some? <==> inBuf.Length <= outBuf.Length
    ensures r.Some? ==> r.value.Valid() && r.value.inp == inBuf && r.value.out == outBuf
    ensures r.Some? ==> r.value.inLen == inBuf.Length
  {
    if inBuf.Length > outBuf.Length then None else Some(Reserved(inBuf, outBuf, inBuf.Length))
  }

  /** `PaddedInOutBuf`: the whole blocks, and the padded tail block if there is one. */
  datatype PaddedBuf = PaddedBuf(blocks: InOutBuf, tailIn: Block, hasTail: bool) {
    predicate Valid() {
      && blocks.Valid() && blocks.inAt == 0 && blocks.outAt == 0
      && |tailIn| == blocks.size
      && (hasTail ==> blocks.Bytes() + blocks.size <= blocks.out.Length)
    }

    /** The bytes that are to be processed: the whole blocks and then the tail. */
    function Content(): seq<byte>
      requires Valid()
      reads blocks.inp
    {
      blocks.Input() + if hasTail then tailIn else []
    }

    /** The length of `into_out`. */
    function OutLen(): nat {
      blocks.Bytes() + if hasTail then blocks.size else 0
    }
  }

  /** The buffer holds the padded message, and room for it. */
  ghost predicate HoldsPadded(p: PaddedBuf, s: Scheme, bs: nat, m: seq<byte>)
    requires SizeOk(s, bs) && p.Valid()
    reads p.blocks.inp
  {
    && PadMessage(s, bs, m).Some?
    && p.OutLen() == |PadMessage(s, bs, m).value| * bs
    && p.Content() == Concat(PadMessage(s, bs, m).value)
  }

  /** The whole blocks of the message. */
  function WholeBlocks(r: Reserved, bs: nat): InOutBuf
    requires bs > 0
  {
    InOutBuf(r.inp, r.out, 0, 0, bs, r.inLen / bs)
  }

  lemma WholeBlocksFit(r: Reserved, bs: nat)
    requires r.Valid() && bs > 0
    ensures WholeBlocks(r, bs).Valid()
    ensures WholeBlocks(r, bs).Bytes() == r.inLen / bs * bs <= r.inLen < WholeBlocks(r, bs).Bytes() + bs
  {
    var q := r.inLen / bs;
    assert r.inLen == q * bs + r.inLen % bs;
  }

  /** `into_padded_blocks`: it fails exactly when the scheme cannot pad the message or the padded
      message does not fit. */
  method IntoPaddedBlocks(r: Reserved, s: Scheme, bs: nat) returns (p: Option<PaddedBuf>)
    requires r.Valid() && SizeOk(s, bs)
    ensures p.Some? <==> PaddedFits(s, bs, r.Message(), r.out.Length)
    ensures p.Some? ==> p.value.Valid() && p.value.blocks == WholeBlocks(r, bs)
    ensures p.Some? ==> HoldsPadded(p.value, s, bs, r.Message())
  {
    hide PadMessage, Concat, Tail;
    ghost var m := r.Message();
    WholeBlocksFit(r, bs);
    var blocks := WholeBlocks(r, bs);
    var blen := blocks.Bytes();
    PadCases(s, bs, m, blen);
    hide InOutBuf.Bytes;
    var tailLen := r.inLen - blen;
    assert blocks.Input() == m[..blen];
    var ty := TypeOf(s);
    if !ty.Reversible? && tailLen == 0 {
      assert m[..blen] + [] == m[..blen];
      return Some(PaddedBuf(blocks, Zeros(bs), false));
    }
    if s.NoPadding? {
      return None;
    }
    var resLen := blen + bs;
    if resLen > r.out.Length {
      return None;
    }
    var tailIn := PadTail(r.inp, blen, tailLen, s, bs);
    assert m[blen..] == r.inp[blen..blen + tailLen];
    return Some(PaddedBuf(blocks, tailIn, true));
  }

  /** Copies the last bytes of the message into a block of its own and pads it. */
  method PadTail(inp: array<byte>, start: nat, len: nat, s: Scheme, bs: nat) returns (tail: Block)
    requires start + len <= inp.Length && SizeOk(s, bs) && len < bs && !s.NoPadding?
    ensures tail == inp[start..start + len] + Tail(s, bs - len)
  {
    var tailIn := new byte[bs](_ => 0);
    CopyInto(tailIn, 0, inp[start..start + len]);
    assert tailIn[..len] == inp[start..start + len];
    Pad(s, tailIn, len);
    tail := tailIn[..];
  }

  ghost predicate PaddedFits(s: Scheme, bs: nat, m: seq<byte>, room: nat)
    requires SizeOk(s, bs)
  {
    PadMessage(s, bs, m).Some? && |PadMessage(s, bs, m).value| * bs <= room
  }

  /** The padded message by the arithmetic of the source, which puts `blen` bytes in whole blocks. */
  lemma PadCases(s: Scheme, bs: nat, m: seq<byte>, blen: nat)
    requires SizeOk(s, bs) && blen == |m| / bs * bs
    ensures blen <= |m| < blen + bs
    ensures var padded := PadMessage(s, bs, m);
            if !TypeOf(s).Reversible? && blen == |m| then
              padded.Some? && |padded.value| * bs == blen && Concat(padded.value) == m[..blen]
            else if s.NoPadding? then padded.None?
            else
              && padded.Some? && |padded.value| * bs == blen + bs
              && Concat(padded.value) == m[..blen] + (m[blen..] + Tail(s, blen + bs - |m|))
  {
    hide Concat, Tail, Split;
    var (full, rest) := Split(Eager, bs, m);
    SplitSpec(Eager, bs, m);
    ConcatLen(bs, full);
    assert m[..blen] == Concat(full) && m[blen..] == rest;
    if (rest != [] && !s.NoPadding?) || TypeOf(s).Reversible? {
      ConcatAppend(full, [rest + Tail(s, bs - |rest|)]);
      ConcatOne(rest + Tail(s, bs - |rest|));
      OneMore(|full|, bs);
    }
  }

  lemma {:induction false} ProcessAppend(e: Cipher, bs: nat, a: seq<byte>, n: nat, b: seq<byte>)
    requires bs > 0 && |a| == n * bs
    ensures Process(e, bs, a + b) == Process(e, bs, a) + Process(e, bs, b)
    decreases n
  {
    if n == 0 {
      assert a + b == b;
      assert [] + Process(e, bs, b) == Process(e, bs, b);
    } else {
      assert n * bs == (n - 1) * bs + bs;
      ProcessAppend(e, bs, a[bs..], n - 1, b);
      assert (a + b)[..bs] == a[..bs] && (a + b)[bs..] == a[bs..] + b;
      Assoc(e(a[..bs]), Process(e, bs, a[bs..]), Process(e, bs, b));
    }
  }

  lemma ProcessOne(e: Cipher, bs: nat, block: Block)
    requires bs > 0 && |block| == bs
    ensures Process(e, bs, block) == e(block)
  {
    assert block[..bs] == block && block[bs..] == [];
    assert e(block) + [] == e(block);
  }

  /** Sends the blocks and then the tail of a padded buffer through `e`. */
  method ProcessPadded(p: PaddedBuf, e: Cipher)
    requires p.Valid() && KeepsSize(e, p.blocks.size)
    modifies p.blocks.out
    ensures p.blocks.out[..p.OutLen()]
            == Process(e, p.blocks.size, old(p.Content()))
  {
    hide Process;
    var bs := p.blocks.size;
    ghost var m := p.blocks.Input();
    ProcessBlocks(p.blocks, e);
    assert p.blocks.out[..p.blocks.Bytes()] == Process(e, bs, m);
    if p.hasTail {
      CopyInto(p.blocks.out, p.blocks.Bytes(), e(p.tailIn));
      assert p.blocks.out[..p.OutLen()] == Process(e, bs, m) + e(p.tailIn);
      ProcessAppend(e, bs, m, p.blocks.len, p.tailIn);
      ProcessOne(e, bs, p.tailIn);
    } else {
      assert m + [] == m;
    }
  }

  // ----- pad, process, unpad -----

  ghost predicate Inverts(d: Cipher, e: Cipher, bs: nat) {
    forall b: Block :: |b| == bs ==> d(e(b)) == b
  }

  /** A block with every byte xored with the key byte. */
  function XorBlock(key: byte, b: Block): (r: Block)
    ensures |r| == |b| && forall i :: 0 <= i < |b| ==> r[i] == Xor(b[i], key)
  {
    seq(|b|, i requires 0 <= i < |b| => Xor(b[i], key))
  }

  /** A cipher of the required kind. */
  lemma XorIsCipher(key: byte, bs: nat)
    ensures KeepsSize(b => XorBlock(key, b), bs) && Inverts(b => XorBlock(key, b), b => XorBlock(key, b), bs)
  {
    hide Xor;
    forall b: Block
      ensures XorBlock(key, XorBlock(key, b)) == b
    {
      forall i | 0 <= i < |b|
        ensures XorBlock(key, XorBlock(key, b))[i] == b[i]
      {
        XorTwice(b[i], key);
      }
    }
  }

  lemma {:induction false} ProcessBack(e: Cipher, d: Cipher, bs: nat, blocks: seq<Block>)
    requires bs > 0 && KeepsSize(e, bs) && Inverts(d, e, bs)
    requires forall b :: b in blocks ==> |b| == bs
    ensures |Process(e, bs, Concat(blocks))| == |blocks| * bs
    ensures Process(d, bs, Process(e, bs, Concat(blocks))) == Concat(blocks)
  {
    if blocks == [] {
      assert |blocks| * bs == 0;
    } else {
      ProcessBack(e, d, bs, blocks[1..]);
      hide Process;
      var m, b, rest := Concat(blocks), blocks[0], Concat(blocks[1..]);
      hide Concat;
      assert b in blocks;
      assert m[..bs] == b && m[bs..] == rest;
      ProcessStep(e, bs, m);
      var c := Process(e, bs, m);
      assert c[..bs] == e(b) && c[bs..] == Process(e, bs, rest);
      ProcessStep(d, bs, c);
      NextFits(|blocks| - 1, |blocks|, bs);
    }
  }

  lemma {:induction false} CutAgain(bs: nat, blocks: seq<Block>)
    requires bs > 0 && forall b :: b in blocks ==> |b| == bs
    ensures SplitBlocks(Eager, bs, Concat(blocks)) == (blocks, [])
  {
    SplitBlocksIsSplit(Eager, bs, Concat(blocks));
    SplitOfBlocks(bs, blocks);
  }

  /** Decrypts `n` bytes in place and unpads them. */
  method DecryptUnpad(out: array<byte>, n: nat, s: Scheme, bs: nat, d: Cipher,
                      ghost padded: seq<Block>, ghost e: Cipher)
    returns (plain: Option<seq<byte>>)
    requires bs > 0 && n <= out.Length && n == |padded| * bs
    requires KeepsSize(e, bs) && KeepsSize(d, bs) && Inverts(d, e, bs)
    requires forall b :: b in padded ==> |b| == bs
    requires out[..n] == Process(e, bs, Concat(padded))
    modifies out
    ensures plain == UnpadBlocks(s, padded)
  {
    hide Process, Concat, Split, UnpadBlocks;
    ProcessBack(e, d, bs, padded);
    DivUnique(n, bs, |padded|, 0);
    var bytes := InOutBuf(out, out, 0, 0, 1, n);
    ChunksCover(bytes, bs);
    var (back, _) := IntoChunks(bytes, bs);
    ProcessBlocks(back, d);
    assert out[..n] == Concat(padded);
    CutAgain(bs, padded);
    var (blocks, _) := SplitBlocks(Eager, bs, out[..n]);
    plain := UnpadBlocks(s, blocks);
  }

  lemma UnpadsTo(s: Scheme, bs: nat, m: seq<byte>)
    requires SizeOk(s, bs) && PadMessage(s, bs, m).Some?
    ensures forall b :: b in PadMessage(s, bs, m).value ==> |b| == bs
    ensures UnpadBlocks(s, PadMessage(s, bs, m).value) == Some(if s.ZeroPadding? then StripLast(bs, m) else m)
  {
    PaddedBlocks(s, bs, m);
    if TypeOf(s).Reversible? {
      PadThenUnpad(s, bs, m);
    } else if s.ZeroPadding? {
      ZeroPadThenUnpad(bs, m);
    } else {
      SplitSpec(Eager, bs, m);
      var (full, rest) := Split(Eager, bs, m);
      assert rest == [] && Concat(full) + [] == Concat(full);
    }
  }

  /** The padded message fits and comes out blockwise encrypted, and unpadding what it decrypts to
      gives the message, without the zeros at the end of its last block for zero padding. */
  ghost predicate SealedAndOpened(s: Scheme, bs: nat, e: Cipher, m: seq<byte>, room: nat,
                                  sealed: Option<seq<byte>>, plain: Option<seq<byte>>)
    requires SizeOk(s, bs)
  {
    && (sealed.Some? <==> PaddedFits(s, bs, m, room))
    && (sealed.Some? ==> sealed.value == Process(e, bs, Concat(PadMessage(s, bs, m).value)))
    && (sealed.Some? ==> plain == Some(if s.ZeroPadding? then StripLast(bs, m) else m))
  }

  /** End to end: pad, encrypt each block, decrypt in place, unpad. The message comes back, except
      that zero padding drops the zeros at the end of its last block. */
  method PadProcessUnpad(r: Reserved, s: Scheme, bs: nat, e: Cipher, d: Cipher)
    returns (sealed: Option<seq<byte>>, plain: Option<seq<byte>>)
    requires r.Valid() && SizeOk(s, bs)
    requires KeepsSize(e, bs) && KeepsSize(d, bs) && Inverts(d, e, bs)
    modifies r.out
    ensures SealedAndOpened(s, bs, e, old(r.Message()), r.out.Length, sealed, plain)
  {
    hide Process, Concat, PadMessage, StripLast, UnpadBlocks;
    ghost var m := r.Message();
    var p := IntoPaddedBlocks(r, s, bs);
    if p.None? {
      return None, None;
    }
    UnpadsTo(s, bs, m);
    ProcessPadded(p.value, e);
    var n := p.value.OutLen();
    sealed := Some(r.out[..n]);
    plain := DecryptUnpad(r.out, n, s, bs, d, PadMessage(s, bs, m).value, e);
  }

  /** End to end in one buffer, which holds the message in front. */
  method PadProcessUnpadInPlace(buf: array<byte>, msgLen: nat, s: Scheme, bs: nat, e: Cipher, d: Cipher)
    returns (sealed: Option<seq<byte>>, plain: Option<seq<byte>>)
    requires SizeOk(s, bs) && KeepsSize(e, bs) && KeepsSize(d, bs) && Inverts(d, e, bs)
    modifies buf
    ensures msgLen > buf.Length ==> sealed.None?
    ensures msgLen <= buf.Length ==> SealedAndOpened(s, bs, e, old(buf[..msgLen]), buf.Length, sealed, plain)
  {
    var r := FromMutSlice(buf, msgLen);
    if r.None? {
      return None, None;
    }
    sealed, plain := PadProcessUnpad(r.value, s, bs, e, d);
  }

  /** End to end from one buffer to another; what comes out is the same. */
  method PadProcessUnpadBetween(inBuf: array<byte>, outBuf: array<byte>, s: Scheme, bs: nat, e: Cipher, d: Cipher)
    returns (sealed: Option<seq<byte>>, plain: Option<seq<byte>>)
    requires SizeOk(s, bs) && KeepsSize(e, bs) && KeepsSize(d, bs) && Inverts(d, e, bs)
    modifies outBuf
    ensures inBuf.Length > outBuf.Length ==> sealed.None?
    ensures inBuf.Length <= outBuf.Length ==>
              SealedAndOpened(s, bs, e, old(inBuf[..]), outBuf.Length, sealed, plain)
  {
    var r := FromSlices(inBuf, outBuf);
    if r.None? {
      return None, None;
    }
    assert inBuf[..] == inBuf[..inBuf.Length];
    sealed, plain := PadProcessUnpad(r.value, s, bs, e, d);
  }

  // ----- xor -----

  /** Exclusive or, bit by bit. */
  function Xor(a: byte, b: byte): (r: byte)
    ensures forall i :: 0 <= i < 8 ==> BitsBE(r, 8)[i] == (BitsBE(a, 8)[i] != BitsBE(b, 8)[i])
  {
    Pow2Of8();
    XorByteBits(a, b);
    XorBits(a, b, 8)
  }

  lemma XorByteBits(a: byte, b: byte)
    ensures forall i :: 0 <= i < 8 ==> BitsBE(XorBits(a, b, 8), 8)[i] == (BitsBE(a, 8)[i] != BitsBE(b, 8)[i])
  {
    hide BitsBE, XorBits;
    forall i | 0 <= i < 8
      ensures BitsBE(XorBits(a, b, 8), 8)[i] == (BitsBE(a, 8)[i] != BitsBE(b, 8)[i])
    {
      BitsOfXor(a, b, 8, i);
    }
  }

  lemma XorTwice(a: byte, b: byte)
    ensures Xor(Xor(a, b), b) == a
  {
    Pow2Of8();
    XorBitsTwice(a, b, 8);
  }

  /** `xor_in2out`: every bit of the output is set exactly if the bits of the key and of the input of
      before the call differ. */
  method XorInToOut(b: InOutBuf, data: seq<byte>)
    requires b.Valid() && b.size == 1 && |data| == b.len
    modifies b.out
    ensures forall k :: 0 <= k < b.len ==> b.out[b.outAt + k] == Xor(old(b.inp[b.inAt + k]), data[k])
    ensures forall k, i :: 0 <= k < b.len && 0 <= i < 8 ==>
              BitsBE(b.out[b.outAt + k], 8)[i] == (BitsBE(old(b.inp[b.inAt + k]), 8)[i] != BitsBE(data[k], 8)[i])
    ensures forall k :: 0 <= k < b.out.Length && !(b.outAt <= k < b.outAt + b.len) ==> b.out[k] == old(b.out[k])
  {
    hide BitsBE;
    assert b.Bytes() == b.len;
    XorRange(b.inp, b.out, b.inAt, b.outAt, data);
  }

  method XorRange(inp: array<byte>, out: array<byte>, inAt: nat, outAt: nat, data: seq<byte>)
    requires inAt + |data| <= inp.Length && outAt + |data| <= out.Length
    requires inp != out || inAt == outAt || inAt + |data| <= outAt || outAt + |data| <= inAt
    modifies out
    ensures forall k :: 0 <= k < |data| ==> out[outAt + k] == Xor(old(inp[inAt + k]), data[k])
    ensures forall k :: 0 <= k < out.Length && !(outAt <= k < outAt + |data|) ==> out[k] == old(out[k])
  {
    hide Xor;
    var i := 0;
    while i < |data|
      invariant 0 <= i <= |data|
      invariant forall k :: 0 <= k < i ==> out[outAt + k] == Xor(old(inp[inAt + k]), data[k])
      invariant forall k :: 0 <= k < out.Length && !(outAt <= k < outAt + i) ==> out[k] == old(out[k])
      invariant inp != out ==> inp[..] == old(inp[..])
    {
      assert inp[inAt + i] == old(inp[inAt + i]);
      out[outAt + i] := Xor(inp[inAt + i], data[i]);
      i := i + 1;
    }
  }

  /** Applying the same key stream twice, in place, restores the buffer. */
  method XorTwiceInPlace(buf: array<byte>, key: seq<byte>)
    requires |key| == buf.Length
    modifies buf
    ensures buf[..] == old(buf[..])
  {
    hide Xor, BitsBE;
    var b := InOutBuf(buf, buf, 0, 0, 1, buf.Length);
    XorInToOut(b, key);
    XorInToOut(b, key);
    forall k | 0 <= k < buf.Length
      ensures buf[k] == old(buf[k])
    {
      XorTwice(old(buf[k]), key[k]);
    }
  }
}
