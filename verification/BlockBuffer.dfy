/** `BlockBuffer`: the eager kind keeps its position in the last byte of the block, the lazy kind
    in a field of its own. The calls of `compress` are returned in order. */
module BlockBuffer {
  import opened Common
  import opened BlockSplit

  class BlockBuffer {
    const kind: Kind
    const bs: nat
    const buffer: array<byte>
    var pos: byte          // used by the lazy kind only

    function GetPos(): nat
      requires bs > 0 && buffer.Length == bs
      reads this, buffer
    {
      if kind.Eager? then buffer[bs - 1] else pos
    }

    predicate Valid()
      reads this, buffer
    {
      && 1 <= bs <= 255 && buffer.Length == bs
      && kind.Invariant(GetPos(), bs)
    }

    /** `get_data`. */
    function Data(): (d: seq<byte>)
      requires Valid()
      reads this, buffer
      ensures kind.Invariant(|d|, bs)
    {
      buffer[..GetPos()]
    }

    /** The empty buffer of `Default`. */
    constructor (kind: Kind, bs: nat)
      requires 1 <= bs <= 255
      ensures Valid() && fresh(buffer) && this.kind == kind && this.bs == bs && Data() == []
    {
      this.kind, this.bs, this.pos := kind, bs, 0;
      this.buffer := new byte[bs](_ => 0);
    }

    method SetPos(val: nat)
      requires 1 <= bs <= 255 && buffer.Length == bs && kind.Invariant(val, bs)
      modifies this`pos, buffer
      ensures Valid() && GetPos() == val
      ensures forall i :: 0 <= i < bs && (kind.Eager? ==> i < bs - 1) ==> buffer[i] == old(buffer[i])
    {
      if kind.Eager? {
        buffer[bs - 1] := val;
      } else {
        pos := val;
      }
    }

    /** `digest_blocks`: the buffered bytes and the input are split like one message. */
    method DigestBlocks(input: seq<byte>) returns (calls: seq<seq<Block>>)
      requires Valid()
      modifies this`pos, buffer
      ensures Valid()
      ensures (Concat(calls), Data()) == Split(kind, bs, old(Data()) + input)
      ensures |calls| <= 2 && forall c :: c in calls ==> c != []
    {
      hide Concat, Split, SplitBlocks;
      ghost var data := Data();
      var pos := GetPos();
      var rem := bs - pos;
      var n := |input|;
      if kind.Invariant(n, rem) {
        CopyInto(buffer, pos, input);
        SetPos(pos + n);
        assert Data() == data + input;
        RestSplits(kind, bs, data + input);
        ConcatNone<Block>();
        return [];
      }
      var rest := input;
      calls := [];
      if pos != 0 {
        rest := input[rem..];
        var block := CompleteBlock(input[..rem]);
        calls := [[block]];
        FirstBlock(kind, bs, data, input, block);
      } else {
        assert data + input == rest;
        ConcatNone<Block>();
      }
      ghost var first := calls;
      assert Concat(first) + Split(kind, bs, rest).0 == Split(kind, bs, data + input).0;
      var (blocks, leftover) := SplitBlocks(kind, bs, rest);
      SplitBlocksIsSplit(kind, bs, rest);
      SplitShape(kind, bs, rest);
      if blocks != [] {
        calls := calls + [blocks];
      }
      ConcatCalls(first, blocks);
      Keep(leftover);
    }

    /** Fills the buffer up; the result is the block that is compressed. */
    method CompleteBlock(left: seq<byte>) returns (block: Block)
      requires Valid() && |Data()| + |left| == bs
      modifies buffer
      ensures block == old(Data()) + left
    {
      CopyInto(buffer, GetPos(), left);
      block := buffer[..];
    }

    /** Stores what is left over at the start of the buffer. */
    method Keep(leftover: seq<byte>)
      requires 1 <= bs <= 255 && buffer.Length == bs && kind.Invariant(|leftover|, bs)
      modifies this`pos, buffer
      ensures Valid() && Data() == leftover
    {
      CopyInto(buffer, 0, leftover);
      assert buffer[..|leftover|] == leftover;
      SetPos(|leftover|);
      assert Data() == leftover;
    }

    /** `reset`. */
    method Reset()
      requires Valid()
      modifies this`pos, buffer
      ensures Valid() && Data() == []
    {
      SetPos(0);
    }

    /** `pad_with_zeros`. */
    method PadWithZeros() returns (res: Block)
      requires Valid()
      modifies this`pos, buffer
      ensures Valid() && Data() == []
      ensures |res| == bs && res == old(Data()) + Zeros(bs - |old(Data())|)
    {
      var pos := GetPos();
      res := buffer[..pos] + Zeros(bs - pos);
      SetPos(0);
    }

    /** `set`. */
    method Set(buf: Block, pos: nat)
      requires Valid() && |buf| == bs && kind.Invariant(pos, bs)
      modifies this`pos, buffer
      ensures Valid() && Data() == buf[..pos]
    {
      forall i | 0 <= i < bs {
        buffer[i] := buf[i];
      }
      SetPos(pos);
    }

    /** Writes the delimiter and zeros behind the data. */
    method FillTail(delim: byte)
      requires Valid() && kind.Eager?
      modifies buffer
      ensures buffer[..] == old(Data()) + [delim] + Zeros(bs - |old(Data())| - 1)
    {
      ghost var data := Data();
      var pos := GetPos();
      buffer[pos] := delim;
      assert buffer[..pos + 1] == data + [delim];
      CopyInto(buffer, pos + 1, Zeros(bs - pos - 1));
    }

    /** `digest_pad`: one block, or two when the suffix does not fit any more. */
    method DigestPad(delim: byte, suffix: seq<byte>) returns (calls: seq<Block>)
      requires Valid() && kind.Eager? && |suffix| <= bs
      modifies this`pos, buffer
      ensures Valid() && Data() == []
      ensures |calls| == if |old(Data())| + 1 + |suffix| <= bs then 1 else 2
      ensures forall c :: c in calls ==> |c| == bs
      ensures var k := |calls| * bs - |old(Data())| - 1 - |suffix|;
              0 <= k < bs && Concat(calls) == old(Data()) + [delim] + Zeros(k) + suffix
    {
      hide Concat, PadCalls;
      ghost var data := Data();
      var pos := GetPos();
      FillTail(delim);
      var n := bs - |suffix|;
      if bs - pos - 1 < |suffix| {
        var block := Zeros(n) + suffix;
        calls := [buffer[..], block];
        TwoCalls(bs, data, delim, suffix);
      } else {
        OneCall(bs, data, delim, suffix, buffer[..]);
        CopyInto(buffer, n, suffix);
        calls := [buffer[..]];
      }
      PadCallsAre(bs, data, delim, suffix);
      SetPos(0);
    }
  }

  /** The one or two blocks that `digest_pad` gives to `compress`. */
  function PadCalls(bs: nat, data: seq<byte>, delim: byte, suffix: seq<byte>): seq<Block>
    requires |data| < bs && |suffix| <= bs
  {
    if |data| + 1 + |suffix| <= bs then [data + [delim] + Zeros(bs - |data| - 1 - |suffix|) + suffix]
    else [data + [delim] + Zeros(bs - |data| - 1), Zeros(bs - |suffix|) + suffix]
  }

  lemma TwoCalls(bs: nat, data: seq<byte>, delim: byte, suffix: seq<byte>)
    requires |data| < bs && |suffix| <= bs < |data| + 1 + |suffix|
    ensures [data + [delim] + Zeros(bs - |data| - 1), Zeros(bs - |suffix|) + suffix]
            == PadCalls(bs, data, delim, suffix)
  {
  }

  lemma OneCall(bs: nat, data: seq<byte>, delim: byte, suffix: seq<byte>, filled: seq<byte>)
    requires |data| + 1 + |suffix| <= bs && filled == data + [delim] + Zeros(bs - |data| - 1)
    ensures |filled| == bs && filled[bs..] == []
    ensures [filled[..bs - |suffix|] + suffix + filled[bs..]] == PadCalls(bs, data, delim, suffix)
  {
    OneBlockPad(bs, data, delim, suffix);
    assert filled[..bs - |suffix|] + suffix + [] == filled[..bs - |suffix|] + suffix;
  }

  lemma PadCallsAre(bs: nat, data: seq<byte>, delim: byte, suffix: seq<byte>)
    requires |data| < bs && |suffix| <= bs
    ensures var calls := PadCalls(bs, data, delim, suffix);
            && |calls| == (if |data| + 1 + |suffix| <= bs then 1 else 2)
            && (forall c :: c in calls ==> |c| == bs)
            && var k := |calls| * bs - |data| - 1 - |suffix|;
            0 <= k < bs && Concat(calls) == data + [delim] + Zeros(k) + suffix
  {
    hide Concat;
    if |data| + 1 + |suffix| <= bs {
      OneBlockPad(bs, data, delim, suffix);
    } else {
      TwoBlockPad(bs, data, delim, suffix);
    }
  }

  lemma TwoBlockPad(bs: nat, data: seq<byte>, delim: byte, suffix: seq<byte>)
    requires |data| < bs && |suffix| <= bs
    ensures Concat([data + [delim] + Zeros(bs - |data| - 1), Zeros(bs - |suffix|) + suffix])
            == data + [delim] + Zeros(2 * bs - |data| - 1 - |suffix|) + suffix
  {
    hide Concat;
    var head, a, b := data + [delim], Zeros(bs - |data| - 1), Zeros(bs - |suffix|);
    assert [head + a, b + suffix] == [head + a] + [b + suffix];
    ConcatCons(head + a, [b + suffix]);
    ConcatOne(b + suffix);
    ZerosJoin(|a|, |b|);
    assert (head + a) + (b + suffix) == head + (a + b) + suffix;
  }

  lemma OneBlockPad(bs: nat, data: seq<byte>, delim: byte, suffix: seq<byte>)
    requires |data| + 1 + |suffix| <= bs
    ensures var block := data + [delim] + Zeros(bs - |data| - 1 - |suffix|) + suffix;
            (data + [delim] + Zeros(bs - |data| - 1))[..bs - |suffix|] + suffix == block && Concat([block]) == block
  {
    hide Concat;
    var k := bs - |data| - 1 - |suffix|;
    assert Zeros(bs - |data| - 1)[..k] == Zeros(k);
    assert (data + [delim] + Zeros(bs - |data| - 1))[..bs - |suffix|] == data + [delim] + Zeros(k);
    ConcatOne(data + [delim] + Zeros(k) + suffix);
  }

  lemma FirstBlock(kind: Kind, bs: nat, data: seq<byte>, input: seq<byte>, block: Block)
    requires bs > 0 && |data| <= bs && !kind.Invariant(|data + input|, bs)
    requires |data| + |input| >= bs && block == data + input[..bs - |data|]
    ensures Concat([[block]]) + Split(kind, bs, input[bs - |data|..]).0 == Split(kind, bs, data + input).0
    ensures Split(kind, bs, input[bs - |data|..]).1 == Split(kind, bs, data + input).1
  {
    ConcatOne([block]);
    var m := data + input;
    assert m[..bs] == block && m[bs..] == input[bs - |data|..];
    SplitStep(kind, bs, m);
  }

  lemma ConcatCalls(first: seq<seq<Block>>, blocks: seq<Block>)
    ensures Concat(if blocks != [] then first + [blocks] else first) == Concat(first) + blocks
  {
    ConcatAppend(first, [blocks]);
    ConcatOne(blocks);
  }

  /** `try_new`. */
  method TryNew(kind: Kind, bs: nat, buf: seq<byte>) returns (r: BlockBuffer?)
    requires 1 <= bs <= 255
    ensures r != null <==> kind.Invariant(|buf|, bs)
    ensures r != null ==> fresh(r) && fresh(r.buffer) && r.Valid() && r.kind == kind && r.bs == bs && r.Data() == buf
  {
    if !kind.Invariant(|buf|, bs) {
      return null;
    }
    r := new BlockBuffer(kind, bs);
    forall i | 0 <= i < |buf| {
      r.buffer[i] := buf[i];
    }
    r.SetPos(|buf|);
  }

  /** Streaming refinement: whatever the chunks, the blocks and the buffered bytes are those of the
      whole message. */
  method DigestChunks(b: BlockBuffer, chunks: seq<seq<byte>>) returns (blocks: seq<Block>)
    requires b.Valid()
    modifies b`pos, b.buffer
    ensures b.Valid()
    ensures (blocks, b.Data()) == Split(b.kind, b.bs, old(b.Data()) + Concat(chunks))
  {
    blocks := [];
    var i := 0;
    ghost var data := b.Data();
    RestSplits(b.kind, b.bs, data);
    assert data + Concat([]) == data;
    while i < |chunks|
      invariant 0 <= i <= |chunks| && b.Valid()
      invariant (blocks, b.Data()) == Split(b.kind, b.bs, data + Concat(chunks[..i]))
    {
      ghost var done := data + Concat(chunks[..i]);
      SplitAppend(b.kind, b.bs, done, chunks[i]);
      var calls := b.DigestBlocks(chunks[i]);
      blocks := blocks + Concat(calls);
      assert chunks[..i + 1] == chunks[..i] + [chunks[i]];
      ConcatAppend(chunks[..i], [chunks[i]]);
      ConcatOne(chunks[i]);
      assert done + chunks[i] == data + Concat(chunks[..i + 1]);
      i := i + 1;
    }
    assert chunks[..i] == chunks;
  }
}
