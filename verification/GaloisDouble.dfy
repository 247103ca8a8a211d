/** Doubling in GF(2^n) for n = 64, 128 and 256: arithmetic on 64-bit limbs against multiplication by
    x. The bits of a block, most significant first, are the coefficients of a polynomial over GF(2), in
    which exclusive or is addition. */
module GaloisDouble {
  import opened Common
  import opened BitStrings

  type Bits = seq<bool>

  function Off(n: nat): (r: Bits)
    ensures |r| == n && forall i :: 0 <= i < n ==> !r[i]
  {
    Repeat(false, n)
  }

  function Xor(a: Bits, b: Bits): (r: Bits)
    requires |a| == |b|
    ensures |r| == |a| && forall i :: 0 <= i < |a| ==> r[i] == (a[i] != b[i])
  {
    seq(|a|, i requires 0 <= i < |a| => a[i] != b[i])
  }

  /** `c` if the bit is set, else zero: the product of a limb by 0 or 1. */
  function If(bit: bool, c: Bits): (r: Bits)
    ensures |r| == |c|
  {
    if bit then c else Off(|c|)
  }

  /** The polynomial with the given exponents, in `n` bits. */
  function Poly(exponents: set<nat>, n: nat): (r: Bits)
    ensures |r| == n && forall i :: 0 <= i < n ==> r[i] == ((n - 1 - i) in exponents)
  {
    seq(n, i requires 0 <= i < n => (n - 1 - i) in exponents)
  }

  // ----- the field -----

  /** The lower terms of the three moduli. */
  const LOW64: set<nat> := {0, 1, 3, 4}
  const LOW128: set<nat> := {0, 1, 2, 7}
  const LOW256: set<nat> := {0, 2, 5, 10}

  /** The term 1 and other terms of low degree. */
  predicate InOneLimb(low: set<nat>) {
    0 in low && forall e :: e in low ==> e < 64
  }

  /** Times x, reduced with the lower terms `c` of the modulus. */
  function Double(c: Bits, w: Bits): (r: Bits)
    requires |c| == |w| > 0
    ensures |r| == |w|
  {
    Xor(w[1..] + [false], If(w[0], c))
  }

  function Half(c: Bits, w: Bits): (r: Bits)
    requires |c| == |w| > 0
    ensures |r| == |w|
  {
    var n := |w| - 1;
    Xor([false] + w[..n], If(w[n], [true] + c[..n]))
  }

  /** `r` is x times `w` modulo x^n plus `c`: with n + 1 coefficients, their sum is zero or the
      modulus. */
  predicate IsProduct(c: Bits, w: Bits, r: Bits)
    requires |c| == |w| == |r|
  {
    var sum := Xor(w + [false], [false] + r);
    sum == Off(|w| + 1) || sum == [true] + c
  }

  /** Doubling computes that product, and nothing else of degree below n does. */
  lemma DoubleIsProduct(c: Bits, w: Bits, r: Bits)
    requires |c| == |w| == |r| > 0
    ensures IsProduct(c, w, r) <==> r == Double(c, w)
  {
    hide Double;
    if IsProduct(c, w, r) {
      forall i | 0 <= i < |w|
        ensures r[i] == Double(c, w)[i]
      {
        ProductAt(c, w, r, i);
        DoubleAt(c, w, i);
      }
    }
    if r == Double(c, w) {
      var sum := Xor(w + [false], [false] + r);
      var expected := If(w[0], [true] + c);
      forall i | 0 <= i < |w| + 1
        ensures sum[i] == expected[i]
      {
        if i > 0 {
          SumAt(w, r, i - 1);
          DoubleAt(c, w, i - 1);
        }
      }
      assert sum == expected;
    }
  }

  /** The highest coefficient alone decides whether the modulus is taken off. */
  lemma ProductAt(c: Bits, w: Bits, r: Bits, i: nat)
    requires |c| == |w| == |r| && i < |w| && IsProduct(c, w, r)
    ensures r[i] == ((w[1..] + [false])[i] != (w[0] && c[i]))
  {
    var sum := Xor(w + [false], [false] + r);
    assert sum[0] == w[0];
    SumAt(w, r, i);
    if w[0] {
      assert sum == [true] + c;
    } else {
      assert sum == Off(|w| + 1);
    }
  }

  lemma DoubleAt(c: Bits, w: Bits, i: nat)
    requires |c| == |w| && i < |w|
    ensures Double(c, w)[i] == ((w[1..] + [false])[i] != (w[0] && c[i]))
  {
  }

  lemma SumAt(w: Bits, r: Bits, i: nat)
    requires |w| == |r| && i < |w|
    ensures Xor(w + [false], [false] + r)[i + 1] == ((w[1..] + [false])[i] != r[i])
  {
    assert (w + [false])[i + 1] == (w[1..] + [false])[i];
  }

  /** Halving and doubling undo each other when the modulus has the term 1. */
  lemma Inverse(c: Bits, w: Bits)
    requires |c| == |w| > 0 && c[|c| - 1]
    ensures Half(c, Double(c, w)) == w && Double(c, Half(c, w)) == w
  {
    hide Double, Half;
    var n := |w| - 1;
    var d, h := Double(c, w), Half(c, w);
    DoubleAt(c, w, n);
    HalfAt(c, w, 0);
    forall i | 0 <= i <= n
      ensures Half(c, d)[i] == w[i] && Double(c, h)[i] == w[i]
    {
      HalfAt(c, d, i);
      DoubleAt(c, h, i);
      if i > 0 {
        DoubleAt(c, w, i - 1);
      }
      if i < n {
        HalfAt(c, w, i + 1);
      }
    }
  }

  lemma Linear(c: Bits, a: Bits, b: Bits)
    requires |c| == |a| == |b| > 0
    ensures Double(c, Xor(a, b)) == Xor(Double(c, a), Double(c, b))
  {
    hide Double;
    forall i | 0 <= i < |a|
      ensures Double(c, Xor(a, b))[i] == Xor(Double(c, a), Double(c, b))[i]
    {
      DoubleAt(c, Xor(a, b), i);
      DoubleAt(c, a, i);
      DoubleAt(c, b, i);
    }
  }

  function DoubleTimes(c: Bits, k: nat, w: Bits): (r: Bits)
    requires |c| == |w| > 0
    ensures |r| == |w|
  {
    if k == 0 then w else Double(c, DoubleTimes(c, k - 1, w))
  }

  function HalfTimes(c: Bits, k: nat, w: Bits): (r: Bits)
    requires |c| == |w| > 0
    ensures |r| == |w|
    decreases k
  {
    if k == 0 then w else HalfTimes(c, k - 1, Half(c, w))
  }

  lemma {:induction false} HalfTimesOuter(c: Bits, k: nat, w: Bits)
    requires |c| == |w| > 0
    ensures HalfTimes(c, k + 1, w) == Half(c, HalfTimes(c, k, w))
    decreases k
  {
    hide Half;
    if k > 0 {
      HalfTimesOuter(c, k - 1, Half(c, w));
    }
  }

  lemma {:induction false} DoubleTimesInner(c: Bits, k: nat, w: Bits)
    requires |c| == |w| > 0
    ensures DoubleTimes(c, k + 1, w) == DoubleTimes(c, k, Double(c, w))
  {
    if k > 0 {
      DoubleTimesInner(c, k - 1, w);
    }
  }

  /** Any number of doublings is undone by as many inverse doublings, and conversely. */
  lemma {:induction false} RepeatedInverse(c: Bits, k: nat, w: Bits)
    requires |c| == |w| > 0 && c[|c| - 1]
    ensures HalfTimes(c, k, DoubleTimes(c, k, w)) == w
    ensures DoubleTimes(c, k, HalfTimes(c, k, w)) == w
  {
    hide Double, Half;
    if k > 0 {
      var d := DoubleTimes(c, k - 1, w);
      Inverse(c, d);
      RepeatedInverse(c, k - 1, w);
      var h := HalfTimes(c, k - 1, w);
      HalfTimesOuter(c, k - 1, w);
      DoubleTimesInner(c, k - 1, Half(c, h));
      Inverse(c, h);
    }
  }

  // ----- limbs as bits -----

  /** `x << 1`, `x >> 1`, a bit at the low end and a bit at the high end of a limb. */
  function Shl(x: Bits): (r: Bits) requires |x| == 64 ensures |r| == 64 { x[1..] + [false] }
  function Shr(x: Bits): (r: Bits) requires |x| == 64 ensures |r| == 64 { [false] + x[..63] }
  function LowBit(b: bool): (r: Bits) ensures |r| == 64 { Off(63) + [b] }
  function HighBit(b: bool): (r: Bits) ensures |r| == 64 { [b] + Off(63) }

  /** The constant of the source in one limb. */
  function Limb(low: set<nat>): (r: Bits)
    ensures |r| == 64
  {
    Poly(low, 64)
  }

  /** Shifting a limb and adding the bit that comes in from its neighbour. */
  lemma CarryUp(x: Bits, b: bool)
    requires |x| == 64
    ensures Xor(Shl(x), LowBit(b)) == x[1..] + [b]
  {
  }

  lemma CarryDown(x: Bits, b: bool)
    requires |x| == 64
    ensures Xor(Shr(x), HighBit(b)) == [b] + x[..63]
    ensures Xor(Shr(x), If(b, HighBit(true))) == [b] + x[..63]
  {
  }

  /** A doubled block, for constants that fit in its last limb. */
  lemma DoubleInLimbs(limb: Bits, w: Bits, n: nat)
    requires |limb| == 64 && |w| == n + 64
    ensures w[1..n + 1] + Xor(Shl(w[n..]), If(w[0], limb)) == Double(Off(n) + limb, w)
  {
    var c := Off(n) + limb;
    var last := Xor(Shl(w[n..]), If(w[0], limb));
    forall i | 0 <= i < |w|
      ensures (w[1..n + 1] + last)[i] == Double(c, w)[i]
    {
      DoubleAt(c, w, i);
      if i >= n {
        assert (w[1..] + [false])[i] == Shl(w[n..])[i - n];
        assert c[i] == limb[i - n];
      }
    }
  }

  lemma HalfAt(c: Bits, w: Bits, i: nat)
    requires |c| == |w| && i < |w|
    ensures Half(c, w)[i] == ((i > 0 && w[i - 1]) != (w[|w| - 1] && (i == 0 || c[i - 1])))
  {
    var n := |w| - 1;
    assert ([true] + c[..n])[i] == (i == 0 || c[i - 1]);
    assert ([false] + w[..n])[i] == (i > 0 && w[i - 1]);
  }

  lemma HalfInLimbs(limb: Bits, w: Bits, n: nat)
    requires |limb| == 64 && |w| == n + 64 && n > 0
    ensures var low := w[|w| - 1];
            ([low] + w[..n - 1]) + Xor(w[n - 1..n + 63], If(low, Shr(limb))) == Half(Off(n) + limb, w)
  {
    hide Half;
    var c, low := Off(n) + limb, w[|w| - 1];
    var last := Xor(w[n - 1..n + 63], If(low, Shr(limb)));
    forall i | 0 <= i < |w|
      ensures (([low] + w[..n - 1]) + last)[i] == Half(c, w)[i]
    {
      HalfAt(c, w, i);
      if i >= n {
        assert (([low] + w[..n - 1]) + last)[i] == last[i - n];
        assert w[n - 1..n + 63][i - n] == w[i - 1];
        if i > n {
          assert c[i - 1] == limb[i - n - 1];
        }
      }
    }
  }

  /** The halved block in limbs, and that doubling it gives the block back. */
  lemma HalvedBlock(low: set<nat>, w: Bits, n: nat)
    requires |w| == n + 64 && n > 0 && InOneLimb(low)
    ensures var bit := w[|w| - 1];
            ([bit] + w[..n - 1]) + Xor(w[n - 1..n + 63], If(bit, Shr(Limb(low)))) == Half(Poly(low, n + 64), w)
    ensures IsProduct(Poly(low, n + 64), Half(Poly(low, n + 64), w), w)
  {
    hide Double, Half, IsProduct, Shr;
    var c := Poly(low, n + 64);
    assert c == Off(n) + Limb(low);
    HalfInLimbs(Limb(low), w, n);
    Inverse(c, w);
    DoubleIsProduct(c, Half(c, w), w);
  }

  // ----- limbs as numbers -----

  const TOP: nat := 0x8000_0000_0000_0000
  const RANGE: nat := 0x1_0000_0000_0000_0000

  type u64 = x: int | 0 <= x < RANGE

  const C64: u64 := 0x1B
  const C128: u64 := 0x87
  const C256: u64 := 0x425

  lemma Pow2Limb()
    ensures Pow2(63) == TOP && Pow2(64) == RANGE
  {
    Pow2Of8();
    assert Pow2(8) == 2 * Pow2(7) && Pow2(64) == 2 * Pow2(63);
    hide Pow2;
    Pow2Add(8, 8);
    Pow2Add(16, 16);
    Pow2Add(32, 32);
  }

  function Word(x: u64): (r: Bits)
    ensures |r| == 64
  {
    BitsBE(x, 64)
  }

  /** `x << 1`, without the bit that falls out. */
  function Left(x: u64): u64 { 2 * x % RANGE }

  /** `x >> 63`. */
  function First(x: u64): (b: u64) ensures b <= 1 { x / TOP }

  function XorLimb(x: u64, y: u64): u64 {
    Pow2Limb();
    XorBits(x, y, 64)
  }

  lemma WordLeft(x: u64)
    ensures Word(Left(x)) == Shl(Word(x)) && Word(x)[0] == (First(x) == 1)
  {
    Pow2Limb();
    BitsOfShl(x, 64);
    BitsFirst(x, 64);
  }

  lemma WordRight(x: u64)
    ensures Word(x / 2) == Shr(Word(x)) && Word(x)[63] == (x % 2 == 1)
  {
    Pow2Limb();
    BitsOfShr(x, 64);
    BitsSplit1(x, 64);
  }

  lemma WordXor(x: u64, y: u64)
    ensures Word(XorLimb(x, y)) == Xor(Word(x), Word(y))
  {
    hide BitsBE, XorBits;
    forall i | 0 <= i < 64
      ensures Word(XorLimb(x, y))[i] == Xor(Word(x), Word(y))[i]
    {
      BitsOfXor(x, y, 64, i);
    }
  }

  lemma WordTimes(bit: u64, c: u64)
    requires bit <= 1
    ensures bit * c == (if bit == 1 then c else 0) && Word(bit * c) == If(bit == 1, Word(c))
  {
    BitsOfZero(64);
  }

  lemma WordLow(bit: u64)
    requires bit <= 1
    ensures Word(bit) == LowBit(bit == 1)
  {
    hide BitsBE;
    BitsOfZero(63);
    BitsSplit1(bit, 64);
  }

  lemma WordHigh(bit: u64)
    requires bit <= 1
    ensures bit * TOP < RANGE && Word(bit * TOP) == HighBit(bit == 1)
  {
    Pow2Limb();
    hide Pow2, BitsBE;
    BitsOfZero(63);
    BitsFirst(0, 64);
    BitsFirst(TOP, 64);
    if bit == 0 {
      assert bit * TOP == 0;
    } else {
      assert bit * TOP == TOP;
    }
  }

  /** A constant of at most twelve bits. */
  lemma WordSmall(c: u64)
    requires c < 4096
    ensures Word(c) == Off(52) + BitsBE(c, 12)
  {
    assert Pow2(4) == 16 && Pow2(8) == 256 by {
      Pow2Of8();
    }
    Pow2Add(8, 4);
    hide Pow2;
    BitsSplit(c, 0, c, 52, 12);
    BitsOfZero(52);
  }

  lemma WordConstants()
    ensures Word(C64) == Limb(LOW64) && Word(C128) == Limb(LOW128) && Word(C256) == Limb(LOW256)
    ensures InOneLimb(LOW64) && InOneLimb(LOW128) && InOneLimb(LOW256)
  {
    WordSmall(C64);
    WordSmall(C128);
    WordSmall(C256);
    hide Word;
    assert BitsBE(0x1B, 12) == Poly(LOW64, 12);
    assert BitsBE(0x87, 12) == Poly(LOW128, 12);
    assert BitsBE(0x425, 12) == Poly(LOW256, 12);
    assert Off(52) + Poly(LOW64, 12) == Limb(LOW64);
    assert Off(52) + Poly(LOW128, 12) == Limb(LOW128);
    assert Off(52) + Poly(LOW256, 12) == Limb(LOW256);
  }

  /** A limb that moves up and takes in the first bit of its neighbour. */
  lemma UpLimb(x: u64, y: u64)
    ensures Word(XorLimb(Left(x), First(y))) == Word(x)[1..] + [Word(y)[0]]
  {
    hide Word, Left, First, XorLimb, Xor, Shl, LowBit;
    WordLeft(x);
    WordLeft(y);
    WordLow(First(y));
    WordXor(Left(x), First(y));
    CarryUp(Word(x), Word(y)[0]);
  }

  /** The last limb, which takes in the constant if a bit has fallen out in front. */
  lemma LastUp(x: u64, front: u64, c: u64)
    ensures First(front) * c < RANGE
    ensures Word(XorLimb(Left(x), First(front) * c)) == Xor(Shl(Word(x)), If(Word(front)[0], Word(c)))
  {
    hide Word, Left, First, XorLimb, Xor, Shl, If;
    WordLeft(x);
    WordLeft(front);
    WordTimes(First(front), c);
    WordXor(Left(x), First(front) * c);
  }

  lemma DownLimb(x: u64, y: u64)
    ensures y % 2 * TOP < RANGE && Word(XorLimb(x / 2, y % 2 * TOP)) == [Word(y)[63]] + Word(x)[..63]
  {
    hide Word, XorLimb, Xor, Shr, HighBit;
    WordRight(x);
    WordRight(y);
    WordHigh(y % 2);
    WordXor(x / 2, y % 2 * TOP);
    CarryDown(Word(x), Word(y)[63]);
  }

  lemma LastDown(z: u64, last: u64, c: u64)
    ensures last % 2 * (c / 2) < RANGE
    ensures Word(XorLimb(z, last % 2 * (c / 2))) == Xor(Word(z), If(Word(last)[63], Shr(Word(c))))
  {
    hide Word, XorLimb, Xor, Shr, If;
    WordRight(last);
    WordRight(c);
    WordTimes(last % 2, c / 2);
    WordXor(z, last % 2 * (c / 2));
  }

  /** `u64::from_be_bytes` and `to_be_bytes`. */
  function FromBytes(s: seq<byte>): (x: u64)
    requires |s| == 8
    ensures Word(x) == ToBits(s)
  {
    BitsOfNumber(s);
    Pow2Limb();
    NumberBE(s)
  }

  function ToBytes(x: u64): (s: seq<byte>)
    ensures |s| == 8 && ToBits(s) == Word(x)
  {
    BitsOfBytes(x, 8);
    BytesBE(x, 8)
  }

  // ----- the code -----

  method Dbl64(block: seq<byte>) returns (res: seq<byte>)
    requires |block| == 8
    ensures |res| == 8 && ToBits(res) == Double(Poly(LOW64, 64), ToBits(block))
    ensures IsProduct(Poly(LOW64, 64), ToBits(block), ToBits(res))
  {
    hide Word, Left, First, XorLimb, ToBits, IsProduct, FromBytes, ToBytes;
    var val := FromBytes(block);
    LastUp(val, val, C64);
    var a := First(val);
    val := Left(val);
    val := XorLimb(val, a * C64);
    res := ToBytes(val);
    WordConstants();
    DoubleIsProduct(Poly(LOW64, 64), ToBits(block), ToBits(res));
  }

  method InvDbl64(block: seq<byte>) returns (res: seq<byte>)
    requires |block| == 8
    ensures |res| == 8 && ToBits(res) == Half(Poly(LOW64, 64), ToBits(block))
    ensures IsProduct(Poly(LOW64, 64), ToBits(res), ToBits(block))
  {
    hide Word, Left, First, XorLimb, ToBits, IsProduct, FromBytes, ToBytes, Double;
    ghost var w := ToBits(block);
    var val := FromBytes(block);
    var a := val % 2;
    WordRight(val);
    WordHigh(1);
    WordXor(TOP, C64 / 2);
    WordRight(C64);
    WordTimes(a, XorLimb(TOP, C64 / 2));
    WordXor(val / 2, a * XorLimb(TOP, C64 / 2));
    val := val / 2;
    val := XorLimb(val, a * XorLimb(TOP, C64 / 2));
    res := ToBytes(val);
    WordConstants();
    assert Xor(HighBit(true), Shr(Limb(LOW64))) == [true] + Poly(LOW64, 64)[..63];
    Inverse(Poly(LOW64, 64), w);
    DoubleIsProduct(Poly(LOW64, 64), ToBits(res), w);
  }

  method Dbl128(block: seq<byte>) returns (res: seq<byte>)
    requires |block| == 16
    ensures |res| == 16 && ToBits(res) == Double(Poly(LOW128, 128), ToBits(block))
    ensures IsProduct(Poly(LOW128, 128), ToBits(block), ToBits(res))
  {
    hide *;
    ghost var w := ToBits(block);
    var val0, val1 := FromBytes(block[..8]), FromBytes(block[8..]);
    TwoLimbs(block);
    UpLimb(val0, val1);
    LastUp(val1, val0, C128);
    var b := First(val1);
    var a := First(val0);
    val0 := Left(val0);
    val0 := XorLimb(val0, b);
    val1 := Left(val1);
    val1 := XorLimb(val1, a * C128);
    res := ToBytes(val0) + ToBytes(val1);
    TwoLimbs(res);
    assert res[..8] == ToBytes(val0) && res[8..] == ToBytes(val1);
    assert Word(val0) == w[1..65];
    WordConstants();
    DoubledBlock(LOW128, w, 64);
  }

  method InvDbl128(block: seq<byte>) returns (res: seq<byte>)
    requires |block| == 16
    ensures |res| == 16 && ToBits(res) == Half(Poly(LOW128, 128), ToBits(block))
    ensures IsProduct(Poly(LOW128, 128), ToBits(res), ToBits(block))
  {
    hide *;
    ghost var w := ToBits(block);
    var val0, val1 := FromBytes(block[..8]), FromBytes(block[8..]);
    TwoLimbs(block);
    DownLimb(val1, val0);
    DownLimb(val0, val1);
    WordRight(val1);
    var a := val0 % 2 * TOP;
    var b := val1 % 2;
    LastDown(XorLimb(val1 / 2, a), val1, C128);
    val0 := val0 / 2;
    val1 := val1 / 2;
    val1 := XorLimb(val1, a);
    val0 := XorLimb(val0, b * TOP);
    assert Word(val0) == [w[127]] + w[..63] && Word(val1) == w[63..127];
    val1 := XorLimb(val1, b * (C128 / 2));
    res := ToBytes(val0) + ToBytes(val1);
    TwoLimbs(res);
    assert res[..8] == ToBytes(val0) && res[8..] == ToBytes(val1);
    WordConstants();
    HalvedBlock(LOW128, w, 64);
  }

  method Dbl256(block: seq<byte>) returns (res: seq<byte>)
    requires |block| == 32
    ensures |res| == 32 && ToBits(res) == Double(Poly(LOW256, 256), ToBits(block))
    ensures IsProduct(Poly(LOW256, 256), ToBits(block), ToBits(res))
  {
    hide *;
    ghost var w := ToBits(block);
    var val0, val1 := FromBytes(block[0..8]), FromBytes(block[8..16]);
    var val2, val3 := FromBytes(block[16..24]), FromBytes(block[24..32]);
    FourLimbs(block);
    UpLimb(val0, val1);
    UpLimb(val1, val2);
    UpLimb(val2, val3);
    LastUp(val3, val0, C256);
    var a := First(val0);
    var b := First(val1);
    var c := First(val2);
    var d := First(val3);
    val0 := Left(val0);
    val0 := XorLimb(val0, b);
    val1 := Left(val1);
    val1 := XorLimb(val1, c);
    val2 := Left(val2);
    val2 := XorLimb(val2, d);
    val3 := Left(val3);
    val3 := XorLimb(val3, a * C256);
    res := ToBytes(val0) + ToBytes(val1) + ToBytes(val2) + ToBytes(val3);
    FourLimbs(res);
    assert res[0..8] == ToBytes(val0) && res[8..16] == ToBytes(val1);
    assert res[16..24] == ToBytes(val2) && res[24..32] == ToBytes(val3);
    MovedUp(w, ToBits(block[0..8]), ToBits(block[8..16]), ToBits(block[16..24]), ToBits(block[24..32]));
    WordConstants();
    DoubledBlock(LOW256, w, 192);
  }

  method InvDbl256(block: seq<byte>) returns (res: seq<byte>)
    requires |block| == 32
    ensures |res| == 32 && ToBits(res) == Half(Poly(LOW256, 256), ToBits(block))
    ensures IsProduct(Poly(LOW256, 256), ToBits(res), ToBits(block))
  {
    hide *;
    ghost var w := ToBits(block);
    var val0, val1 := FromBytes(block[0..8]), FromBytes(block[8..16]);
    var val2, val3 := FromBytes(block[16..24]), FromBytes(block[24..32]);
    FourLimbs(block);
    DownLimb(val0, val3);
    DownLimb(val1, val0);
    DownLimb(val2, val1);
    DownLimb(val3, val2);
    var a := val0 % 2 * TOP;
    var b := val1 % 2 * TOP;
    var c := val2 % 2 * TOP;
    var d := val3 % 2;
    LastDown(XorLimb(val3 / 2, c), val3, C256);
    val0 := val0 / 2;
    val1 := val1 / 2;
    val2 := val2 / 2;
    val3 := val3 / 2;
    val1 := XorLimb(val1, a);
    val2 := XorLimb(val2, b);
    val3 := XorLimb(val3, c);
    val0 := XorLimb(val0, d * TOP);
    MovedDown(w, ToBits(block[0..8]), ToBits(block[8..16]), ToBits(block[16..24]), ToBits(block[24..32]));
    val3 := XorLimb(val3, d * (C256 / 2));
    res := ToBytes(val0) + ToBytes(val1) + ToBytes(val2) + ToBytes(val3);
    FourLimbs(res);
    assert res[0..8] == ToBytes(val0) && res[8..16] == ToBytes(val1);
    assert res[16..24] == ToBytes(val2) && res[24..32] == ToBytes(val3);
    WordConstants();
    HalvedBlock(LOW256, w, 192);
  }

  /** The bits of four limbs, each with the first bit of the next or the last bit of the one before. */
  lemma MovedUp(w: Bits, a: Bits, b: Bits, c: Bits, d: Bits)
    requires |a| == |b| == |c| == |d| == 64 && w == a + b + c + d
    ensures (a[1..] + [b[0]]) + (b[1..] + [c[0]]) + (c[1..] + [d[0]]) == w[1..193] && d == w[192..] && a[0] == w[0]
  {
    assert a[1..] + [b[0]] == w[1..65];
    assert b[1..] + [c[0]] == w[65..129];
    assert c[1..] + [d[0]] == w[129..193];
  }

  lemma MovedDown(w: Bits, a: Bits, b: Bits, c: Bits, d: Bits)
    requires |a| == |b| == |c| == |d| == 64 && w == a + b + c + d
    ensures ([d[63]] + a[..63]) + ([a[63]] + b[..63]) + ([b[63]] + c[..63]) == [w[255]] + w[..191]
    ensures [c[63]] + d[..63] == w[191..255] && d[63] == w[255]
  {
    assert [a[63]] + b[..63] == w[63..127];
    assert [b[63]] + c[..63] == w[127..191];
    assert [d[63]] + a[..63] == [w[255]] + w[..63];
    assert w[..63] + w[63..127] + w[127..191] == w[..191];
  }

  lemma FourLimbs(block: seq<byte>)
    requires |block| == 32
    ensures ToBits(block) == ToBits(block[0..8]) + ToBits(block[8..16]) + ToBits(block[16..24]) + ToBits(block[24..32])
  {
    hide ToBits;
    var a, b, c, d := block[0..8], block[8..16], block[16..24], block[24..32];
    ToBitsAppend(a, b);
    ToBitsAppend(a + b, c);
    ToBitsAppend(a + b + c, d);
    assert block == a + b + c + d;
  }

  lemma TwoLimbs(block: seq<byte>)
    requires |block| == 16
    ensures ToBits(block) == ToBits(block[..8]) + ToBits(block[8..])
  {
    assert block == block[..8] + block[8..];
    ToBitsAppend(block[..8], block[8..]);
  }

  /** The doubled block in limbs. */
  lemma DoubledBlock(low: set<nat>, w: Bits, n: nat)
    requires |w| == n + 64 && InOneLimb(low)
    ensures var r := w[1..n + 1] + Xor(Shl(w[n..]), If(w[0], Limb(low)));
            r == Double(Poly(low, n + 64), w) && IsProduct(Poly(low, n + 64), w, r)
  {
    hide Double, IsProduct, Shl;
    assert Poly(low, n + 64) == Off(n) + Limb(low);
    DoubleInLimbs(Limb(low), w, n);
    DoubleIsProduct(Poly(low, n + 64), w, Double(Poly(low, n + 64), w));
  }
}
