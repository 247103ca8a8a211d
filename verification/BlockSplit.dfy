/** The plain specification of the block buffers: the whole message, cut into blocks. */
module BlockSplit {
  import opened Common

  type Block = seq<byte>

  datatype Kind = Eager | Lazy {
    /** `K::invariant`: the positions that a buffer of this kind may rest at. */
    predicate Invariant(pos: nat, size: nat) {
      if Eager? then pos < size else pos <= size
    }
  }

  /** The blocks that are complete for the kind, and the bytes that stay in the buffer. */
  function Split(kind: Kind, bs: nat, m: seq<byte>): (seq<Block>, seq<byte>)
    requires bs > 0
    decreases |m|
  {
    if kind.Invariant(|m|, bs) then ([], m)
    else
      var (blocks, rest) := Split(kind, bs, m[bs..]);
      ([m[..bs]] + blocks, rest)
  }

  /** How many blocks a message of `len` bytes completes. */
  function NumBlocks(kind: Kind, bs: nat, len: nat): nat
    requires bs > 0
  {
    if kind.Eager? then len / bs else if len == 0 then 0 else (len - 1) / bs
  }

  lemma DivStep(len: nat, bs: nat)
    requires bs > 0
    ensures len < bs ==> len / bs == 0
    ensures len >= bs ==> len / bs == (len - bs) / bs + 1
  {
    if len >= bs {
      var q := (len - bs) / bs;
      assert len == (q + 1) * bs + (len - bs) % bs;
      DivUnique(len, bs, q + 1, (len - bs) % bs);
    }
  }

  lemma DivUnique(len: nat, bs: nat, q: nat, r: nat)
    requires r < bs && len == q * bs + r
    ensures len / bs == q && len % bs == r
  {
    var q', r' := len / bs, len % bs;
    assert q' * bs + r' == q * bs + r;
    StepUp(q', q, bs);
    StepUp(q, q', bs);
  }

  lemma StepUp(a: nat, b: nat, c: nat)
    ensures a < b ==> a * c + c <= b * c
  {
    if a < b {
      assert (a + 1) * c <= b * c;
    }
  }

  lemma SplitStep(kind: Kind, bs: nat, m: seq<byte>)
    requires bs > 0 && !kind.Invariant(|m|, bs)
    ensures Split(kind, bs, m) == ([m[..bs]] + Split(kind, bs, m[bs..]).0, Split(kind, bs, m[bs..]).1)
  {
  }

  lemma RestSplits(kind: Kind, bs: nat, data: seq<byte>)
    requires bs > 0 && kind.Invariant(|data|, bs)
    ensures Split(kind, bs, data) == ([], data)
  {
  }

  lemma {:induction false} SplitKeeps(kind: Kind, bs: nat, m: seq<byte>)
    requires bs > 0
    ensures Concat(Split(kind, bs, m).0) + Split(kind, bs, m).1 == m
    decreases |m|
  {
    ConcatNone<byte>();
    hide Concat, Split;
    if kind.Invariant(|m|, bs) {
      RestSplits(kind, bs, m);
      assert [] + m == m;
    } else {
      var head, tail := m[..bs], m[bs..];
      SplitStep(kind, bs, m);
      SplitKeeps(kind, bs, tail);
      var (blocks, rest) := Split(kind, bs, tail);
      ConcatCons(head, blocks);
      Assoc(head, Concat(blocks), rest);
      assert m == head + tail;
    }
  }

  lemma {:induction false} SplitShape(kind: Kind, bs: nat, m: seq<byte>)
    requires bs > 0
    ensures forall b :: b in Split(kind, bs, m).0 ==> |b| == bs
    ensures kind.Invariant(|Split(kind, bs, m).1|, bs)
    ensures kind.Lazy? && m != [] ==> Split(kind, bs, m).1 != []
    decreases |m|
  {
    if !kind.Invariant(|m|, bs) {
      SplitShape(kind, bs, m[bs..]);
    }
  }

  lemma {:induction false} SplitCounts(kind: Kind, bs: nat, m: seq<byte>)
    requires bs > 0
    ensures |Split(kind, bs, m).0| == NumBlocks(kind, bs, |m|)
    decreases |m|
  {
    DivStep(|m|, bs);
    if m != [] {
      DivStep(|m| - 1, bs);
    }
    if !kind.Invariant(|m|, bs) {
      SplitCounts(kind, bs, m[bs..]);
    }
  }

  /** The split keeps every byte, cuts blocks of the block size, leaves a legal rest, and makes as
      many blocks as the arithmetic says. */
  lemma SplitSpec(kind: Kind, bs: nat, m: seq<byte>)
    requires bs > 0
    ensures var (blocks, rest) := Split(kind, bs, m);
            && Concat(blocks) + rest == m
            && (forall b :: b in blocks ==> |b| == bs)
            && kind.Invariant(|rest|, bs)
            && |blocks| == NumBlocks(kind, bs, |m|)
            && |m| == |blocks| * bs + |rest|
            && (kind.Lazy? && m != [] ==> rest != [])
  {
    SplitKeeps(kind, bs, m);
    SplitShape(kind, bs, m);
    SplitCounts(kind, bs, m);
    ConcatLen(bs, Split(kind, bs, m).0);
  }

  /** Splitting may stop anywhere and go on from the rest. */
  lemma {:induction false} SplitAppend(kind: Kind, bs: nat, a: seq<byte>, b: seq<byte>)
    requires bs > 0
    ensures var (blocks, rest) := Split(kind, bs, a);
            var (more, rest') := Split(kind, bs, rest + b);
            Split(kind, bs, a + b) == (blocks + more, rest')
    decreases |a|
  {
    var (blocks, rest) := Split(kind, bs, a);
    var (more, rest') := Split(kind, bs, rest + b);
    if kind.Invariant(|a|, bs) {
      assert blocks + more == more;
    } else {
      SplitAppend(kind, bs, a[bs..], b);
      assert (a + b)[..bs] == a[..bs] && (a + b)[bs..] == a[bs..] + b;
      var tail := Split(kind, bs, a[bs..]).0;
      assert [a[..bs]] + (tail + more) == blocks + more;
    }
  }

  // ----- `split_blocks`, by index arithmetic -----

  function SplitBlocks(kind: Kind, bs: nat, data: seq<byte>): (seq<Block>, seq<byte>)
    requires bs > 0
  {
    if kind.Lazy? && data == [] then ([], [])
    else
      var nb := if kind.Lazy? && |data| % bs == 0 then |data| / bs - 1 else |data| / bs;
      SplitBounds(kind, bs, |data|);
      (seq(nb, i requires 0 <= i < nb => BlockAt(bs, data, i)), data[nb * bs..])
  }

  function BlockAt(bs: nat, data: seq<byte>, i: nat): Block {
    if (i + 1) * bs <= |data| then assert i * bs <= (i + 1) * bs; data[i * bs..(i + 1) * bs] else []
  }

  lemma SplitBounds(kind: Kind, bs: nat, len: nat)
    requires bs > 0 && (kind.Lazy? ==> len > 0)
    ensures var nb := if kind.Lazy? && len % bs == 0 then len / bs - 1 else len / bs;
            nb == NumBlocks(kind, bs, len) && 0 <= nb * bs <= len
  {
    var q, r := len / bs, len % bs;
    assert len == q * bs + r;
    if kind.Lazy? {
      if r == 0 {
        assert q * bs == (q - 1) * bs + bs;
        assert q > 0;
        DivUnique(len - 1, bs, q - 1, bs - 1);
      } else {
        DivUnique(len - 1, bs, q, r - 1);
      }
    }
  }

  /** The index arithmetic of the source cuts the same blocks. */
  lemma SplitBlocksIsSplit(kind: Kind, bs: nat, data: seq<byte>)
    requires bs > 0
    ensures SplitBlocks(kind, bs, data) == Split(kind, bs, data)
  {
    SplitSpec(kind, bs, data);
    var (blocks, rest) := Split(kind, bs, data);
    if !(kind.Lazy? && data == []) {
      hide Split, Concat, BlockAt;
      SplitBounds(kind, bs, |data|);
      var nb := |blocks|;
      forall i | 0 <= i < nb
        ensures blocks[i] == BlockAt(bs, data, i)
      {
        BlockIs(bs, blocks, rest, i);
      }
      assert SplitBlocks(kind, bs, data).0 == blocks;
      ConcatLen(bs, blocks);
      assert (Concat(blocks) + rest)[nb * bs..] == rest;
    }
  }

  lemma {:induction false} ConcatLen(bs: nat, blocks: seq<Block>)
    requires forall b :: b in blocks ==> |b| == bs
    ensures |Concat(blocks)| == |blocks| * bs
  {
    if blocks == [] {
      assert |blocks| * bs == 0;
    } else {
      assert blocks[0] in blocks;
      ConcatLen(bs, blocks[1..]);
      OneMore(|blocks[1..]|, bs);
    }
  }

  lemma OneMore(k: nat, bs: nat)
    ensures (k + 1) * bs == k * bs + bs
  {
  }

  lemma {:induction false} BlockIs(bs: nat, blocks: seq<Block>, rest: seq<byte>, i: nat)
    requires i < |blocks| && forall b :: b in blocks ==> |b| == bs
    ensures BlockAt(bs, Concat(blocks) + rest, i) == blocks[i]
  {
    var tail := Concat(blocks[1..]) + rest;
    assert blocks[0] in blocks;
    assert Concat(blocks) + rest == blocks[0] + tail;
    ConcatLen(bs, blocks);
    StepUp(i, |blocks|, bs);
    if i == 0 {
      assert (blocks[0] + tail)[..bs] == blocks[0];
    } else {
      BlockIs(bs, blocks[1..], rest, i - 1);
      BlockShift(bs, blocks[0], tail, i);
    }
  }

  lemma BlockShift(bs: nat, b: Block, tail: seq<byte>, i: nat)
    requires |b| == bs && i > 0
    ensures BlockAt(bs, b + tail, i) == BlockAt(bs, tail, i - 1)
  {
    var lo := (i - 1) * bs;
    assert i * bs == lo + bs && (i + 1) * bs == lo + bs + bs;
    if lo + bs <= |tail| {
      assert (b + tail)[lo + bs..lo + bs + bs] == tail[lo..lo + bs];
    }
  }

  /** Blocks of the block size are what an eager split of their concatenation gives back. */
  lemma {:induction false} SplitOfBlocks(bs: nat, blocks: seq<Block>)
    requires bs > 0 && forall c :: c in blocks ==> |c| == bs
    ensures Split(Eager, bs, Concat(blocks)) == (blocks, [])
  {
    if blocks != [] {
      SplitOfBlocks(bs, blocks[1..]);
      var m := Concat(blocks);
      assert blocks[0] in blocks;
      assert m[..bs] == blocks[0] && m[bs..] == Concat(blocks[1..]);
      assert blocks == [blocks[0]] + blocks[1..];
    }
  }
}
