/** Complete hash runs: any chunks, then the padding. */
module HashPadding {
  import opened Common
  import opened BitStrings
  import opened BlockSplit
  import opened BlockBuffer

  /** The zeros between the delimiter and the suffix. */
  function ZeroCount(bs: nat, len: nat, suffixLen: nat): nat
    requires bs > 0
  {
    (bs - (len + 1 + suffixLen) % bs) % bs
  }

  function PaddedMessage(bs: nat, m: seq<byte>, delim: byte, suffix: seq<byte>): seq<byte>
    requires bs > 0
  {
    m + [delim] + Zeros(ZeroCount(bs, |m|, |suffix|)) + suffix
  }

  lemma Multiple(n: nat, bs: nat)
    requires bs > 0
    ensures (n * bs) % bs == 0
  {
    DivUnique(n * bs, bs, n, 0);
  }

  /** There is exactly one count below the block size that fills the last block. */
  lemma ZeroCountUnique(bs: nat, len: nat, s: nat, k: nat)
    requires bs > 0 && k < bs
    ensures (len + 1 + k + s) % bs == 0 <==> k == ZeroCount(bs, len, s)
  {
    var a := len + 1 + s;
    assert len + 1 + k + s == a + k;
    ModAdd(a, bs, k);
    ZeroCountIs(bs, len, s);
    hide ZeroCount;
  }

  lemma ZeroCountIs(bs: nat, len: nat, s: nat)
    requires bs > 0
    ensures var r := (len + 1 + s) % bs;
            ZeroCount(bs, len, s) == if r == 0 then 0 else bs - r
  {
    var r := (len + 1 + s) % bs;
    if r == 0 {
      DivUnique(bs, bs, 1, 0);
    } else {
      DivUnique(bs - r, bs, 0, bs - r);
    }
  }

  /** A whole run: `compress` is fed the message, the delimiter, the zeros and the suffix. */
  method Hash(bs: nat, chunks: seq<seq<byte>>, delim: byte, suffix: seq<byte>) returns (blocks: seq<Block>)
    requires 1 <= bs <= 255 && |suffix| <= bs
    ensures Concat(blocks) == PaddedMessage(bs, Concat(chunks), delim, suffix)
    ensures forall b :: b in blocks ==> |b| == bs
  {
    hide Concat, Split, ZeroCount;
    ghost var m := Concat(chunks);
    var b := new BlockBuffer(Eager, bs);
    assert b.Data() + m == m;
    var first := DigestChunks(b, chunks);
    SplitSpec(Eager, bs, m);
    ghost var data := b.Data();
    var last := b.DigestPad(delim, suffix);
    blocks := first + last;
    ConcatAppend(first, last);
    ghost var k := |last| * bs - |data| - 1 - |suffix|;
    RunLength(bs, |first|, |last|, |data|, |m|, |suffix|, k);
    Regroup(Concat(first), data, [delim], Zeros(k), suffix);
  }

  lemma Regroup(a: seq<byte>, b: seq<byte>, c: seq<byte>, d: seq<byte>, e: seq<byte>)
    ensures a + (b + c + d + e) == (a + b) + c + d + e
  {
  }

  lemma RunLength(bs: nat, first: nat, last: nat, rest: nat, len: nat, s: nat, k: nat)
    requires bs > 0 && len == first * bs + rest && k == last * bs - rest - 1 - s && k < bs
    ensures k == ZeroCount(bs, len, s)
  {
    assert len + 1 + k + s == (first + last) * bs;
    Multiple(first + last, bs);
    ZeroCountUnique(bs, len, s, k);
  }

  // ----- injectivity -----

  /** The padding can be taken off in one way only: with a non-zero delimiter and suffixes of one
      length, equal block streams come from equal messages and suffixes. */
  lemma PaddingInjective(bs: nat, m: seq<byte>, m': seq<byte>, delim: byte, s: seq<byte>, s': seq<byte>)
    requires bs > 0 && delim != 0 && |s| == |s'|
    requires PaddedMessage(bs, m, delim, s) == PaddedMessage(bs, m', delim, s')
    ensures m == m' && s == s'
  {
    var k, k' := ZeroCount(bs, |m|, |s|), ZeroCount(bs, |m'|, |s'|);
    var p, p' := m + [delim] + Zeros(k), m' + [delim] + Zeros(k');
    var all := PaddedMessage(bs, m, delim, s);
    assert all == p + s && all == p' + s' && |p| == |p'|;
    assert s == all[|p|..] && s' == all[|p'|..];
    assert p == all[..|p|] && p' == all[..|p'|];
    assert p[|m|] == delim && p'[|m'|] == delim;
    assert forall i :: |m| < i < |p| ==> p[i] == 0;
    assert forall i :: |m'| < i < |p'| ==> p'[i] == 0;
    assert m == p[..|m|] && m' == p'[..|m'|];
  }

  // ----- lengths as suffixes, and FIPS 180-4 -----

  function BytesLE(x: nat, n: nat): (s: seq<byte>)
    ensures |s| == n
    decreases n
  {
    if n == 0 then [] else [x % 256] + BytesLE(x / 256, n - 1)
  }

  lemma {:induction false} LittleEndianIsReversed(x: nat, n: nat, i: nat)
    requires i < n
    ensures BytesLE(x, n)[i] == BytesBE(x, n)[n - 1 - i]
    decreases n
  {
    if i > 0 {
      LittleEndianIsReversed(x / 256, n - 1, i - 1);
    }
  }

  lemma {:induction false} BitsOfZeros(n: nat)
    ensures ToBits(Zeros(n)) == Repeat(false, 8 * n)
    decreases n
  {
    hide BitsBE;
    if n > 0 {
      hide ToBits;
      BitsOfZeros(n - 1);
      ToBitsSnoc(Zeros(n - 1), 0);
      assert Zeros(n) == Zeros(n - 1) + [0];
      BitsOfZero(8);
    }
  }

  /** The padding of sections 5.1.1 and 5.1.2 of FIPS 180-4: the bit 1, as few bits 0 as bring the
      length to `block - w`, and the length of the message in `w` bits. */
  function FipsPad(m: seq<bool>, block: nat, w: nat): seq<bool>
    requires w < block
  {
    m + [true] + Repeat(false, FipsZeros(|m|, block, w)) + BitsBE(|m|, w)
  }

  function FipsZeros(len: nat, block: nat, w: nat): nat
    requires w < block
  {
    var t := (len + 1) % block;
    if t <= block - w then block - w - t else 2 * block - w - t
  }

  /** The count is the smallest non-negative solution of the congruence in the standard. */
  lemma FipsZerosSmallest(len: nat, block: nat, w: nat, k: nat)
    requires 0 < w < block
    ensures (len + 1 + FipsZeros(len, block, w)) % block == block - w
    ensures (len + 1 + k) % block == block - w ==> FipsZeros(len, block, w) <= k
  {
    ModAdd(len + 1, block, FipsZeros(len, block, w));
    ModAdd(len + 1, block, k);
  }

  lemma ModAdd(x: nat, block: nat, k: nat)
    requires block > 0
    ensures var t := x % block;
            && (t + k < block ==> (x + k) % block == t + k)
            && (block <= t + k < 2 * block ==> (x + k) % block == t + k - block)
  {
    DivModIs(x, block);
    ModAddFrom(x / block, x % block, block, k);
    assert x / block * block + x % block + k == x + k;
  }

  lemma DivModIs(x: nat, block: nat)
    requires block > 0
    ensures x == x / block * block + x % block
  {
  }

  lemma ModAddFrom(q: nat, t: nat, block: nat, k: nat)
    requires t < block
    ensures t + k < block ==> (q * block + t + k) % block == t + k
    ensures block <= t + k < 2 * block ==> (q * block + t + k) % block == t + k - block
  {
    OneMore(q, block);
    if t + k < block {
      DivUnique(q * block + t + k, block, q, t + k);
    } else if t + k < 2 * block {
      DivUnique(q * block + t + k, block, q + 1, t + k - block);
    }
  }

  lemma DelimiterByte()
    ensures BitsBE(0x80, 8) == [true] + Repeat(false, 7)
  {
    assert Pow2(3) == 8 && Pow2(5) == 32 && Pow2(7) == 128;
    BitsSplit(0x80, 1, 0, 1, 7);
    BitsOfZero(7);
  }

  lemma DelimiterBits(k: nat)
    ensures ToBits([0x80] + Zeros(k)) == [true] + Repeat(false, 7 + 8 * k)
  {
    hide BitsBE;
    ToBitsAppend([0x80], Zeros(k));
    BitsOfZeros(k);
    DelimiterByte();
    ToBitsSnoc([], 0x80);
    var one: seq<byte> := [0x80];
    assert [] + one == one;
    assert ToBits(one) == [] + BitsBE(0x80, 8);
    hide ToBits;
  }

  lemma PaddedBits(bs: nat, m: seq<byte>, n: nat)
    requires bs > 0
    ensures var k := ZeroCount(bs, |m|, n);
            ToBits(PaddedMessage(bs, m, 0x80, BytesBE(8 * |m|, n)))
            == ToBits(m) + [true] + Repeat(false, 7 + 8 * k) + BitsBE(8 * |m|, 8 * n)
  {
    hide BitsBE, ToBits, BytesBE, ZeroCount;
    var k, len := ZeroCount(bs, |m|, n), BytesBE(8 * |m|, n);
    var mid: seq<byte> := [0x80] + Zeros(k);
    assert PaddedMessage(bs, m, 0x80, len) == m + (mid + len);
    ToBitsAppend(m, mid + len);
    ToBitsAppend(mid, len);
    DelimiterBits(k);
    BitsOfBytes(8 * |m|, n);
    assert ToBits(m) + (([true] + Repeat(false, 7 + 8 * k)) + BitsBE(8 * |m|, 8 * n))
        == ToBits(m) + [true] + Repeat(false, 7 + 8 * k) + BitsBE(8 * |m|, 8 * n);
  }

  lemma ZerosMatch64(len: nat)
    ensures FipsZeros(8 * len, 512, 64) == 7 + 8 * ZeroCount(64, len, 8)
  {
    var q, r := len / 64, len % 64;
    assert len == q * 64 + r;
    DivUnique(8 * len + 1, 512, q, 8 * r + 1);
    ZeroCountIs(64, len, 8);
    hide ZeroCount;
    if r + 9 < 64 {
      DivUnique(len + 9, 64, q, r + 9);
    } else {
      DivUnique(len + 9, 64, q + 1, r + 9 - 64);
    }
  }

  lemma ZerosMatch128(len: nat)
    ensures FipsZeros(8 * len, 1024, 128) == 7 + 8 * ZeroCount(128, len, 16)
  {
    var q, r := len / 128, len % 128;
    assert len == q * 128 + r;
    DivUnique(8 * len + 1, 1024, q, 8 * r + 1);
    ZeroCountIs(128, len, 16);
    hide ZeroCount;
    if r + 17 < 128 {
      DivUnique(len + 17, 128, q, r + 17);
    } else {
      DivUnique(len + 17, 128, q + 1, r + 17 - 128);
    }
  }

  /** `len64_padding_be` with the bit length is the padding of section 5.1.1. */
  lemma Len64IsFips(m: seq<byte>)
    ensures ToBits(PaddedMessage(64, m, 0x80, BytesBE(8 * |m|, 8))) == FipsPad(ToBits(m), 512, 64)
  {
    hide BitsBE, ToBits, BytesBE, ZeroCount, FipsZeros, PaddedMessage, Repeat;
    PaddedBits(64, m, 8);
    ZerosMatch64(|m|);
  }

  /** `len128_padding_be` with the bit length is the padding of section 5.1.2. */
  lemma Len128IsFips(m: seq<byte>)
    ensures ToBits(PaddedMessage(128, m, 0x80, BytesBE(8 * |m|, 16))) == FipsPad(ToBits(m), 1024, 128)
  {
    hide BitsBE, ToBits, BytesBE, ZeroCount, FipsZeros, PaddedMessage, Repeat;
    PaddedBits(128, m, 16);
    ZerosMatch128(|m|);
  }

  /** The three length paddings, over any chunks. `dataLen` is a `u64` or a `u128`. */
  method HashLen64Be(bs: nat, chunks: seq<seq<byte>>, dataLen: nat) returns (blocks: seq<Block>)
    requires 8 <= bs <= 255 && dataLen < 0x1_0000_0000_0000_0000
    ensures Concat(blocks) == PaddedMessage(bs, Concat(chunks), 0x80, BytesBE(dataLen, 8))
    ensures bs == 64 && dataLen == 8 * |Concat(chunks)| ==>
              ToBits(Concat(blocks)) == FipsPad(ToBits(Concat(chunks)), 512, 64)
  {
    hide *;
    blocks := Hash(bs, chunks, 0x80, BytesBE(dataLen, 8));
    Len64IsFips(Concat(chunks));
  }

  method HashLen64Le(bs: nat, chunks: seq<seq<byte>>, dataLen: nat) returns (blocks: seq<Block>)
    requires 8 <= bs <= 255 && dataLen < 0x1_0000_0000_0000_0000
    ensures Concat(blocks) == PaddedMessage(bs, Concat(chunks), 0x80, BytesLE(dataLen, 8))
  {
    blocks := Hash(bs, chunks, 0x80, BytesLE(dataLen, 8));
  }

  method HashLen128Be(bs: nat, chunks: seq<seq<byte>>, dataLen: nat) returns (blocks: seq<Block>)
    requires 16 <= bs <= 255 && dataLen < 0x1_0000_0000_0000_0000_0000_0000_0000_0000
    ensures Concat(blocks) == PaddedMessage(bs, Concat(chunks), 0x80, BytesBE(dataLen, 16))
    ensures bs == 128 && dataLen == 8 * |Concat(chunks)| ==>
              ToBits(Concat(blocks)) == FipsPad(ToBits(Concat(chunks)), 1024, 128)
  {
    hide *;
    blocks := Hash(bs, chunks, 0x80, BytesBE(dataLen, 16));
    Len128IsFips(Concat(chunks));
  }
}
