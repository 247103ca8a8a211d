/** The padding schemes of block-padding. */
module Padding {
  import opened Common
  import opened BlockSplit

  datatype Scheme = ZeroPadding | Pkcs7 | Iso10126 | AnsiX923 | Iso7816 | NoPadding

  datatype PadType = Reversible | Ambiguous | Unpadded

  function TypeOf(s: Scheme): PadType {
    match s
    case ZeroPadding => Ambiguous
    case NoPadding => Unpadded
    case _ => Reversible
  }

  /** The block sizes that the scheme does not panic on. The size is a type parameter, so a program
      either always or never panics for it. */
  predicate SizeOk(s: Scheme, bs: nat) {
    bs > 0 && (s.Pkcs7? || s.Iso10126? || s.AnsiX923? ==> bs <= 255)
  }

  /** The positions that `pad` does not panic on. */
  predicate PosOk(s: Scheme, bs: nat, pos: nat) {
    if s.ZeroPadding? || s.NoPadding? then pos <= bs else pos < bs
  }

  /** Blocks above 255 bytes are for three schemes only, and only two schemes take a full block. */
  lemma WhatPadTakes(s: Scheme, bs: nat, pos: nat)
    ensures SizeOk(s, bs) <==> bs > 0 && (bs <= 255 || s == ZeroPadding || s == Iso7816 || s == NoPadding)
    ensures PosOk(s, bs, pos) <==> pos < bs || (pos == bs && (s == ZeroPadding || s == NoPadding))
  {
  }

  /** The `n` bytes that fill up a block. */
  function Tail(s: Scheme, n: nat): (t: seq<byte>)
    requires !s.NoPadding?
    requires !s.ZeroPadding? ==> 0 < n && (!s.Iso7816? ==> n <= 255)
    ensures |t| == n
  {
    match s
    case ZeroPadding => Zeros(n)
    case AnsiX923 => Zeros(n - 1) + [n]
    case Iso7816 => [0x80] + Zeros(n - 1)
    case _ => Repeat(n as byte, n)
  }

  /** `pad`: the block in place, filled with data up to `pos`. */
  method Pad(s: Scheme, block: array<byte>, pos: nat)
    requires SizeOk(s, block.Length) && PosOk(s, block.Length, pos)
    modifies block
    ensures s.NoPadding? ==> block[..] == old(block[..])
    ensures !s.NoPadding? ==> block[..] == old(block[..pos]) + Tail(s, block.Length - pos)
  {
    var bs := block.Length;
    match s {
      case NoPadding =>
      case ZeroPadding =>
        FillWith(block, pos, bs, 0);
      case AnsiX923 =>
        FillWith(block, pos, bs - 1, 0);
        block[bs - 1] := bs - pos;
      case Iso7816 =>
        block[pos] := 0x80;
        FillWith(block, pos + 1, bs, 0);
      case _ =>
        FillWith(block, pos, bs, bs - pos);
    }
  }

  /** `for b in &mut block[lo..hi] { *b = v }`. */
  method FillWith(block: array<byte>, lo: nat, hi: nat, v: byte)
    requires lo <= hi <= block.Length
    modifies block
    ensures block[..] == old(block[..lo]) + Repeat(v, hi - lo) + old(block[hi..])
  {
    var i := lo;
    while i < hi
      invariant lo <= i <= hi
      invariant forall k :: 0 <= k < block.Length ==> block[k] == if lo <= k < i then v else old(block[k])
    {
      block[i] := v;
      i := i + 1;
    }
  }

  // ----- unpadding one block -----

  /** Without the trailing zeros. */
  function StripZeros(s: seq<byte>): (r: seq<byte>)
    ensures |r| <= |s| && s == r + Zeros(|s| - |r|)
    ensures r != [] ==> r[|r| - 1] != 0
  {
    if s == [] || s[|s| - 1] != 0 then s
    else
      var r := StripZeros(s[..|s| - 1]);
      assert s == s[..|s| - 1] + [0];
      OneMoreZero(s[..|s| - 1], r);
      r
  }

  lemma OneMoreZero(s: seq<byte>, r: seq<byte>)
    requires |r| <= |s| && s == r + Zeros(|s| - |r|)
    ensures s + [0] == r + Zeros(|s| + 1 - |r|)
  {
    var k := |s| - |r|;
    assert Zeros(k + 1) == Zeros(k) + [0];
    Assoc(r, Zeros(k), [0]);
  }

  lemma {:induction false} StripUnique(s: seq<byte>, r: seq<byte>)
    requires |r| <= |s| && s == r + Zeros(|s| - |r|) && (r != [] ==> r[|r| - 1] != 0)
    ensures StripZeros(s) == r
  {
    hide StripZeros;
    var t := StripZeros(s);
    ZerosBehind(s, r);
    ZerosBehind(s, t);
    hide Zeros;
    assert |r| == |t|;
  }

  lemma ZerosBehind(s: seq<byte>, r: seq<byte>)
    requires |r| <= |s| && s == r + Zeros(|s| - |r|)
    ensures forall i :: |r| <= i < |s| ==> s[i] == 0
    ensures r == s[..|r|] && (r != [] ==> s[|r| - 1] == r[|r| - 1])
  {
  }

  function UnpadBlock(s: Scheme, block: seq<byte>): Option<seq<byte>>
    requires block != []
  {
    var bs := |block|;
    var n := block[bs - 1];
    match s
    case NoPadding => Some(block)
    case ZeroPadding => Some(StripZeros(block))
    case Iso7816 =>
      var t := StripZeros(block);
      if t != [] && t[|t| - 1] == 0x80 then Some(t[..|t| - 1]) else None
    case Iso10126 => if n == 0 || n > bs then None else Some(block[..bs - n])
    case _ =>
      if n == 0 || n > bs || block != block[..bs - n] + Tail(s, n) then None else Some(block[..bs - n])
  }

  /** `unpad`. */
  method Unpad(s: Scheme, block: seq<byte>) returns (r: Option<seq<byte>>)
    requires SizeOk(s, |block|)
    ensures r == UnpadBlock(s, block)
  {
    var bs := |block|;
    match s {
      case NoPadding =>
        r := Some(block);
      case ZeroPadding =>
        var i := LastNonZero(block);
        r := Some(block[..i]);
      case Iso7816 =>
        r := UnpadIso7816(block);
      case Pkcs7 =>
        r := UnpadPkcs7(block, true);
      case Iso10126 =>
        r := UnpadPkcs7(block, false);
      case AnsiX923 =>
        r := UnpadAnsi(block);
    }
  }

  /** `Pkcs7::unpad` with its `strict` flag. */
  method UnpadPkcs7(block: seq<byte>, strict: bool) returns (r: Option<seq<byte>>)
    requires 0 < |block| <= 255
    ensures r == UnpadBlock(if strict then Pkcs7 else Iso10126, block)
  {
    var bs := |block|;
    var n := block[bs - 1];
    if n == 0 || n > bs {
      return None;
    }
    var start := bs - n;
    CountedTail(Pkcs7, block, start);
    if strict && exists i :: start <= i < bs - 1 && block[i] != n {
      return None;
    }
    return Some(block[..start]);
  }

  /** `AnsiX923::unpad`. */
  method UnpadAnsi(block: seq<byte>) returns (r: Option<seq<byte>>)
    requires 0 < |block| <= 255
    ensures r == UnpadBlock(AnsiX923, block)
  {
    var bs := |block|;
    var n := block[bs - 1];
    if n == 0 || n > bs {
      return None;
    }
    var start := bs - n;
    CountedTail(AnsiX923, block, start);
    if exists i :: start <= i < bs - 1 && block[i] != 0 {
      return None;
    }
    return Some(block[..start]);
  }

  /** The byte-wise check of a tail whose last byte is right. */
  lemma CountedTail(s: Scheme, block: seq<byte>, start: nat)
    requires (s.Pkcs7? || s.AnsiX923?) && start < |block| <= 255 && block[|block| - 1] == |block| - start
    ensures block == block[..start] + Tail(s, |block| - start) <==>
              forall i :: start <= i < |block| - 1 ==> block[i] == if s.Pkcs7? then |block| - start else 0
  {
    var t := Tail(s, |block| - start);
    assert forall i :: start <= i < |block| ==> (block[..start] + t)[i] == t[i - start];
  }

  /** The scan from the end of `ZeroPadding::unpad`. */
  method LastNonZero(block: seq<byte>) returns (n: nat)
    ensures n <= |block| && block[..n] == StripZeros(block)
  {
    n := |block|;
    while n > 0 && block[n - 1] == 0
      invariant 0 <= n <= |block| && forall k :: n <= k < |block| ==> block[k] == 0
    {
      n := n - 1;
    }
    assert block == block[..n] + Zeros(|block| - n);
    StripUnique(block, block[..n]);
  }

  /** The scan from the end of `Iso7816::unpad`. */
  method UnpadIso7816(block: seq<byte>) returns (r: Option<seq<byte>>)
    requires block != []
    ensures r == UnpadBlock(Iso7816, block)
  {
    hide StripZeros;
    var i := |block|;
    while i > 0
      invariant 0 <= i <= |block| && forall k :: i <= k < |block| ==> block[k] == 0
    {
      if block[i - 1] != 0 {
        assert block == block[..i] + Zeros(|block| - i);
        StripUnique(block, block[..i]);
        if block[i - 1] == 0x80 {
          assert block[..i][..i - 1] == block[..i - 1];
          return Some(block[..i - 1]);
        }
        return None;
      }
      i := i - 1;
    }
    assert block == block[..0] + Zeros(|block|);
    StripUnique(block, block[..0]);
    return None;
  }

  /** Canonical unpadding: for the strict reversible schemes, `unpad` returns `d` exactly when the
      block is `d` with its padding. */
  lemma CanonicalUnpad(s: Scheme, block: seq<byte>, d: seq<byte>)
    requires s.Pkcs7? || s.AnsiX923? || s.Iso7816?
    requires SizeOk(s, |block|)
    ensures UnpadBlock(s, block) == Some(d) <==> |d| < |block| && block == d + Tail(s, |block| - |d|)
  {
    if s.Iso7816? {
      CanonicalIso7816(block, d);
    } else {
      CanonicalCounted(s, block, d);
    }
  }

  lemma CanonicalIso7816(block: seq<byte>, d: seq<byte>)
    requires block != []
    ensures UnpadBlock(Iso7816, block) == Some(d) <==>
              |d| < |block| && block == d + ([0x80] + Zeros(|block| - |d| - 1))
  {
    var t := StripZeros(block);
    if |d| < |block| && block == d + ([0x80] + Zeros(|block| - |d| - 1)) {
      Assoc<byte>(d, [0x80], Zeros(|block| - |d| - 1));
      StripUnique(block, d + [0x80]);
      assert (d + [0x80])[..|d|] == d;
    }
    if UnpadBlock(Iso7816, block) == Some(d) {
      assert t == d + [0x80];
      Assoc<byte>(d, [0x80], Zeros(|block| - |t|));
    }
  }

  lemma CanonicalCounted(s: Scheme, block: seq<byte>, d: seq<byte>)
    requires s.Pkcs7? || s.AnsiX923?
    requires 0 < |block| <= 255
    ensures UnpadBlock(s, block) == Some(d) <==> |d| < |block| && block == d + Tail(s, |block| - |d|)
  {
    if |d| < |block| && block == d + Tail(s, |block| - |d|) {
      LastOfTail(s, |block| - |d|);
      assert block[..|d|] == d;
    }
  }

  /** The last byte of a counted tail is its length. */
  lemma LastOfTail(s: Scheme, n: nat)
    requires (s.Pkcs7? || s.AnsiX923? || s.Iso10126?) && 0 < n <= 255
    ensures Tail(s, n)[n - 1] == n
  {
  }

  /** The lenient scheme accepts any filling, and undoes the strict one. */
  lemma LenientUnpad(block: seq<byte>, d: seq<byte>)
    requires SizeOk(Iso10126, |block|)
    ensures UnpadBlock(Iso10126, block) == Some(d) <==>
              |d| < |block| && d <= block && block[|block| - 1] == |block| - |d|
    ensures |d| < |block| && block == d + Tail(Iso10126, |block| - |d|) ==> UnpadBlock(Iso10126, block) == Some(d)
  {
    if |d| < |block| && block == d + Tail(Iso10126, |block| - |d|) {
      LastOfTail(Iso10126, |block| - |d|);
      assert d <= block;
    }
    if d <= block {
      assert block[..|d|] == d;
    }
  }

  // ----- whole messages -----

  /** `unpad_blocks`. */
  function UnpadBlocks(s: Scheme, blocks: seq<Block>): Option<seq<byte>>
    requires forall b :: b in blocks ==> b != []
  {
    match TypeOf(s)
    case Unpadded => Some(Concat(blocks))
    case _ =>
      if blocks != [] then
        var n := |blocks| - 1;
        assert blocks[n] in blocks;
        var last := UnpadBlock(s, blocks[n]);
        if last.None? then None else Some(Concat(blocks[..n]) + last.value)
      else if TypeOf(s).Ambiguous? then Some([]) else None
  }

  /** The message in padded blocks; nothing when the scheme cannot pad it. */
  function PadMessage(s: Scheme, bs: nat, m: seq<byte>): Option<seq<Block>>
    requires SizeOk(s, bs)
  {
    var (blocks, rest) := Split(Eager, bs, m);
    SplitShape(Eager, bs, m);
    if !TypeOf(s).Reversible? && rest == [] then Some(blocks)
    else if s.NoPadding? then None
    else Some(blocks + [rest + Tail(s, bs - |rest|)])
  }

  lemma PaddedBlocks(s: Scheme, bs: nat, m: seq<byte>)
    requires SizeOk(s, bs) && PadMessage(s, bs, m).Some?
    ensures forall b :: b in PadMessage(s, bs, m).value ==> |b| == bs
  {
    SplitShape(Eager, bs, m);
  }

  /** Padding and then unpadding gives the message back, for every reversible scheme. */
  lemma PadThenUnpad(s: Scheme, bs: nat, m: seq<byte>)
    requires SizeOk(s, bs) && TypeOf(s).Reversible?
    ensures PadMessage(s, bs, m).Some?
    ensures forall b :: b in PadMessage(s, bs, m).value ==> |b| == bs
    ensures UnpadBlocks(s, PadMessage(s, bs, m).value) == Some(m)
  {
    hide Tail, UnpadBlock, Split, Concat;
    var (blocks, rest) := Split(Eager, bs, m);
    SplitSpec(Eager, bs, m);
    PaddedBlocks(s, bs, m);
    var last := rest + Tail(s, bs - |rest|);
    UnpadPadded(s, last, rest);
    assert (blocks + [last])[..|blocks|] == blocks;
  }

  lemma UnpadPadded(s: Scheme, block: seq<byte>, d: seq<byte>)
    requires TypeOf(s).Reversible? && SizeOk(s, |block|)
    requires |d| < |block| && block == d + Tail(s, |block| - |d|)
    ensures UnpadBlock(s, block) == Some(d)
  {
    if s.Iso10126? {
      LenientUnpad(block, d);
    } else {
      CanonicalUnpad(s, block, d);
    }
  }

  /** Without the trailing zeros of the last block, whether that block is full or not. */
  function StripLast(bs: nat, m: seq<byte>): seq<byte>
    requires bs > 0
  {
    var (blocks, last) := Split(Lazy, bs, m);
    Concat(blocks) + StripZeros(last)
  }

  /** Zero padding loses exactly the trailing zeros of the last block. */
  lemma ZeroPadThenUnpad(bs: nat, m: seq<byte>)
    requires bs > 0
    ensures PadMessage(ZeroPadding, bs, m).Some?
    ensures forall b :: b in PadMessage(ZeroPadding, bs, m).value ==> |b| == bs
    ensures UnpadBlocks(ZeroPadding, PadMessage(ZeroPadding, bs, m).value) == Some(StripLast(bs, m))
  {
    hide Split, Concat, StripZeros;
    var (blocks, rest) := Split(Eager, bs, m);
    SplitShape(Eager, bs, m);
    PaddedBlocks(ZeroPadding, bs, m);
    LazyFromEager(bs, m);
    if rest == [] {
      if blocks == [] {
        EmptySplit(bs, m);
      } else {
        assert Concat(blocks[..|blocks| - 1]) + StripZeros(blocks[|blocks| - 1]) == StripLast(bs, m);
      }
    } else {
      var last := rest + Zeros(bs - |rest|);
      StripPadded(rest, bs);
      assert (blocks + [last])[..|blocks|] == blocks;
    }
  }

  lemma {:induction false} StripPadded(rest: seq<byte>, bs: nat)
    requires |rest| <= bs
    ensures StripZeros(rest + Zeros(bs - |rest|)) == StripZeros(rest)
  {
    hide StripZeros, Zeros;
    var t := StripZeros(rest);
    var k, n := |rest| - |t|, bs - |rest|;
    Assoc(t, Zeros(k), Zeros(n));
    ZerosJoin(k, n);
    StripUnique(rest + Zeros(n), t);
  }

  lemma EmptySplit(bs: nat, m: seq<byte>)
    requires bs > 0 && Split(Eager, bs, m) == ([], [])
    ensures StripLast(bs, m) == []
  {
    SplitKeeps(Eager, bs, m);
  }

  /** The lazy split keeps back the last block that the eager one completes. */
  lemma {:induction false} LazyFromEager(bs: nat, m: seq<byte>)
    requires bs > 0
    ensures var (blocks, rest) := Split(Eager, bs, m);
            Split(Lazy, bs, m) == if rest == [] && blocks != [] then (blocks[..|blocks| - 1], blocks[|blocks| - 1])
                                  else (blocks, rest)
    decreases |m|
  {
    if |m| >= bs {
      LazyFromEager(bs, m[bs..]);
      var (tail, rest) := Split(Eager, bs, m[bs..]);
      var blocks := [m[..bs]] + tail;
      if |m| == bs {
        assert m[..bs] == m && blocks[..0] == [];
      } else if rest == [] && tail != [] {
        assert blocks[..|blocks| - 1] == [m[..bs]] + tail[..|tail| - 1];
      } else if rest == [] {
        SplitKeeps(Eager, bs, m[bs..]);
      }
    }
  }

  // ----- exactly what `unpad_blocks` accepts -----

  ghost predicate OfSize(blocks: seq<Block>, bs: nat) {
    bs > 0 && forall b :: b in blocks ==> |b| == bs
  }

  /** The bytes of the tails, scheme by scheme. */
  lemma TailBytes(n: nat, i: nat)
    requires i < n
    ensures Tail(ZeroPadding, n)[i] == 0
    ensures Tail(Iso7816, n)[i] == if i == 0 then 0x80 else 0
    ensures n <= 255 ==> Tail(Pkcs7, n)[i] == n && Tail(Iso10126, n)[i] == n
    ensures n <= 255 ==> Tail(AnsiX923, n)[i] == if i == n - 1 then n else 0
  {
  }

  /** The bytes of a list of blocks, without the last block and in it. */
  lemma {:induction false} LastBlock(bs: nat, blocks: seq<Block>)
    requires OfSize(blocks, bs) && blocks != []
    ensures var n := |blocks| - 1;
            && OfSize(blocks[..n], bs) && |blocks[n]| == bs
            && Concat(blocks) == Concat(blocks[..n]) + blocks[n]
  {
    hide Concat;
    var n := |blocks| - 1;
    var head, last := blocks[..n], blocks[n];
    assert last in blocks;
    assert forall b :: b in head ==> b in blocks;
    assert blocks == head + [last];
    ConcatAppend(head, [last]);
    ConcatOne(last);
  }

  lemma SplitWithRest(bs: nat, blocks: seq<Block>, d: seq<byte>)
    requires OfSize(blocks, bs) && |d| < bs
    ensures Split(Eager, bs, Concat(blocks) + d) == (blocks, d)
  {
    hide Split;
    SplitOfBlocks(bs, blocks);
    SplitAppend(Eager, bs, Concat(blocks), d);
    assert [] + d == d && blocks + [] == blocks;
    RestSplits(Eager, bs, d);
  }

  /** For strict PKCS#7, ANSI X9.23 and ISO 7816, `unpad_blocks` returns `m` exactly when the blocks
      are the padded `m`; everything else, no blocks at all included, is an error. */
  lemma UnpadBlocksIff(s: Scheme, bs: nat, blocks: seq<Block>, m: seq<byte>)
    requires s == Pkcs7 || s == AnsiX923 || s == Iso7816
    requires SizeOk(s, bs) && OfSize(blocks, bs)
    ensures UnpadBlocks(s, blocks) == Some(m) <==> PadMessage(s, bs, m) == Some(blocks)
  {
    hide Concat, Split, UnpadBlock, Tail;
    if PadMessage(s, bs, m) == Some(blocks) {
      PadThenUnpad(s, bs, m);
    }
    if UnpadBlocks(s, blocks) == Some(m) {
      var n := |blocks| - 1;
      LastBlock(bs, blocks);
      var d := UnpadBlock(s, blocks[n]).value;
      CanonicalUnpad(s, blocks[n], d);
      SplitWithRest(bs, blocks[..n], d);
      assert blocks == blocks[..n] + [blocks[n]];
    }
  }

  /** ISO 10126 cuts as many bytes as the last byte says, between one and a block, whatever they are. */
  lemma LenientUnpadBlocks(bs: nat, blocks: seq<Block>, m: seq<byte>)
    requires SizeOk(Iso10126, bs) && OfSize(blocks, bs)
    ensures UnpadBlocks(Iso10126, blocks) == Some(m) <==>
              && blocks != [] && m <= Concat(blocks)
              && 1 <= |Concat(blocks)| - |m| <= bs
              && Concat(blocks)[|Concat(blocks)| - 1] == |Concat(blocks)| - |m|
  {
    hide Concat, UnpadBlock;
    if blocks != [] {
      LastBlock(bs, blocks);
      var head, last := Concat(blocks[..|blocks| - 1]), blocks[|blocks| - 1];
      if |head| <= |m| {
        CutInLast(head, last, m);
        LenientUnpad(last, m[|head|..]);
      }
      var d := UnpadBlock(Iso10126, last);
      if d.Some? {
        LenientUnpad(last, d.value);
        CutInLast(head, last, head + d.value);
      }
    }
  }

  lemma CutInLast(head: seq<byte>, last: seq<byte>, m: seq<byte>)
    requires |head| <= |m|
    ensures m <= head + last <==> m == head + m[|head|..] && m[|head|..] <= last
  {
    var d := m[|head|..];
    if m <= head + last {
      assert forall i :: 0 <= i < |m| ==> m[i] == (head + last)[i];
      assert m == head + d;
      assert forall i :: 0 <= i < |d| ==> d[i] == last[i];
    }
    if m == head + d && d <= last {
      assert head + last == head + (d + last[|d|..]);
      Assoc(head, d, last[|d|..]);
    }
  }

  /** `m` is `all` without the zeros at the end of its last block. */
  ghost predicate CutZeros(bs: nat, all: seq<byte>, m: seq<byte>) {
    var k := |all| - |m|;
    && 0 <= k <= bs && all == m + Zeros(k)
    && (all == [] ==> k == 0)
    && (all != [] && k < bs ==> m != [] && m[|m| - 1] != 0)
  }

  lemma StripCutsZeros(bs: nat, head: seq<byte>, last: seq<byte>)
    requires |last| == bs > 0
    ensures CutZeros(bs, head + last, head + StripZeros(last))
  {
    hide StripZeros, Zeros;
    var t := StripZeros(last);
    Assoc(head, t, Zeros(bs - |t|));
    if t != [] {
      assert (head + t)[|head + t| - 1] == t[|t| - 1];
    }
  }

  /** Zero padding cuts the zeros at the end of the last block and nothing else, and never fails; no
      padding cuts nothing. */
  lemma {:induction false} TotalUnpadBlocks(bs: nat, blocks: seq<Block>)
    requires OfSize(blocks, bs)
    ensures UnpadBlocks(NoPadding, blocks) == Some(Concat(blocks))
    ensures UnpadBlocks(ZeroPadding, blocks) == Some(StripLast(bs, Concat(blocks)))
    ensures UnpadBlocks(ZeroPadding, blocks).Some?
    ensures CutZeros(bs, Concat(blocks), UnpadBlocks(ZeroPadding, blocks).value)
  {
    ConcatNone<byte>();
    SplitOfBlocks(bs, blocks);
    hide Concat, Split, StripZeros, CutZeros, Zeros;
    LazyFromEager(bs, Concat(blocks));
    if blocks != [] {
      LastBlock(bs, blocks);
      StripCutsZeros(bs, Concat(blocks[..|blocks| - 1]), blocks[|blocks| - 1]);
    } else {
      EmptySplit(bs, Concat(blocks));
      NothingCut(bs);
    }
  }

  lemma NothingCut(bs: nat)
    ensures CutZeros(bs, [], [])
  {
    assert [] + Zeros(0) == [];
  }
}
