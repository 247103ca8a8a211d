/** Numbers, bytes and bits: big-endian conversions and exclusive or. */
module BitStrings {
  import opened Common

  function BytesBE(x: nat, n: nat): (s: seq<byte>)
    ensures |s| == n
    decreases n
  {
    if n == 0 then [] else BytesBE(x / 256, n - 1) + [x % 256]
  }

  /** `from_be_bytes`. */
  function NumberBE(s: seq<byte>): nat {
    if s == [] then 0 else 256 * NumberBE(s[..|s| - 1]) + s[|s| - 1]
  }

  /** The `n` low bits of `x`, most significant first. */
  function BitsBE(x: nat, n: nat): (s: seq<bool>)
    ensures |s| == n
    decreases n
  {
    if n == 0 then [] else BitsBE(x / 2, n - 1) + [x % 2 == 1]
  }

  function ToBits(s: seq<byte>): (r: seq<bool>)
    ensures |r| == 8 * |s|
  {
    if s == [] then [] else ToBits(s[..|s| - 1]) + BitsBE(s[|s| - 1], 8)
  }

  lemma ToBitsSnoc(a: seq<byte>, x: byte)
    ensures ToBits(a + [x]) == ToBits(a) + BitsBE(x, 8)
  {
    hide BitsBE;
    assert (a + [x])[..|a + [x]| - 1] == a;
  }

  lemma {:induction false} ToBitsAppend(a: seq<byte>, b: seq<byte>)
    ensures ToBits(a + b) == ToBits(a) + ToBits(b)
    decreases |b|
  {
    hide BitsBE;
    if b == [] {
      assert a + b == a;
      assert ToBits(a) + [] == ToBits(a);
    } else {
      var n := |b| - 1;
      hide ToBits;
      ToBitsAppend(a, b[..n]);
      ToBitsSnoc(a + b[..n], b[n]);
      ToBitsSnoc(b[..n], b[n]);
      assert b == b[..n] + [b[n]];
      Assoc(a, b[..n], [b[n]]);
      Assoc(ToBits(a), ToBits(b[..n]), BitsBE(b[n], 8));
    }
  }

  lemma BitsSplit1(x: nat, n: nat)
    requires n > 0
    ensures BitsBE(x, n) == BitsBE(x / 2, n - 1) + [x % 2 == 1]
  {
  }

  lemma BitsNone(x: nat)
    ensures BitsBE(x, 0) == []
  {
  }

  lemma {:induction false} BitsSplit(x: nat, hi: nat, lo: nat, a: nat, b: nat)
    requires x == hi * Pow2(b) + lo && lo < Pow2(b)
    ensures BitsBE(x, a + b) == BitsBE(hi, a) + BitsBE(lo, b)
    decreases b
  {
    hide BitsBE;
    if b == 0 {
      BitsNone(lo);
    } else {
      var half := Pow2(b - 1);
      assert Pow2(b) == 2 * half;
      hide Pow2;
      assert hi * (2 * half) == 2 * (hi * half);
      BitsSplit(x / 2, hi, lo / 2, a, b - 1);
      BitsSplit1(x, a + b);
      BitsSplit1(lo, b);
      Assoc(BitsBE(hi, a), BitsBE(lo / 2, b - 1), [lo % 2 == 1]);
    }
  }

  lemma Pow2Of8()
    ensures Pow2(8) == 256
  {
    assert Pow2(2) == 4;
    assert Pow2(4) == 16;
    assert Pow2(6) == 64;
  }

  /** The big-endian bytes of a number spell out its big-endian bits. */
  lemma {:induction false} BitsOfBytes(x: nat, n: nat)
    ensures ToBits(BytesBE(x, n)) == BitsBE(x, 8 * n)
    decreases n
  {
    hide BitsBE;
    if n == 0 {
      BitsNone(x);
    } else {
      hide ToBits;
      BitsOfBytes(x / 256, n - 1);
      ToBitsSnoc(BytesBE(x / 256, n - 1), x % 256);
      Pow2Of8();
      hide Pow2;
      BitsSplit(x, x / 256, x % 256, 8 * (n - 1), 8);
    }
  }

  lemma {:induction false} BitsOfZero(n: nat)
    ensures BitsBE(0, n) == Repeat(false, n)
  {
    if n > 0 {
      BitsOfZero(n - 1);
    }
  }

  /** Big-endian bytes and the number that they stand for have the same bits. */
  lemma {:induction false} BitsOfNumber(s: seq<byte>)
    ensures NumberBE(s) < Pow2(8 * |s|) && ToBits(s) == BitsBE(NumberBE(s), 8 * |s|)
    decreases |s|
  {
    NoBytes();
    hide BitsBE, ToBits, Pow2;
    if s != [] {
      var n := |s| - 1;
      BitsOfNumber(s[..n]);
      Pow2Plus8(8 * n);
      Pow2Of8();
      BitsSplit(NumberBE(s), NumberBE(s[..n]), s[n], 8 * n, 8);
      ToBitsSnoc(s[..n], s[n]);
      assert s == s[..n] + [s[n]];
    }
  }

  lemma NoBytes()
    ensures Pow2(0) == 1 && ToBits([]) == [] == BitsBE(0, 0)
  {
  }

  lemma Pow2Plus8(a: nat)
    ensures Pow2(a + 8) == 256 * Pow2(a)
  {
    Pow2Add(a, 8);
    Pow2Of8();
  }

  lemma {:induction false} Pow2Add(a: nat, b: nat)
    ensures Pow2(a + b) == Pow2(a) * Pow2(b)
    decreases b
  {
    if b > 0 {
      Pow2Add(a, b - 1);
      assert Pow2(a) * (2 * Pow2(b - 1)) == 2 * (Pow2(a) * Pow2(b - 1));
    }
  }

  // ----- exclusive or -----

  /** The bitwise exclusive or of the `n` low bits. */
  function XorBits(a: nat, b: nat, n: nat): (r: nat)
    ensures r < Pow2(n)
    decreases n
  {
    if n == 0 then 0 else (if a % 2 == b % 2 then 0 else 1) + 2 * XorBits(a / 2, b / 2, n - 1)
  }

  lemma {:induction false} XorBitsTwice(a: nat, b: nat, n: nat)
    requires a < Pow2(n)
    ensures XorBits(XorBits(a, b, n), b, n) == a
    decreases n
  {
    if n > 0 {
      XorBitsTwice(a / 2, b / 2, n - 1);
    }
  }

  lemma {:induction false} BitsOfXor(a: nat, b: nat, n: nat, i: nat)
    requires i < n
    ensures BitsBE(XorBits(a, b, n), n)[i] == (BitsBE(a, n)[i] != BitsBE(b, n)[i])
    decreases n
  {
    var x := XorBits(a, b, n);
    assert x / 2 == XorBits(a / 2, b / 2, n - 1);
    if i < n - 1 {
      BitsOfXor(a / 2, b / 2, n - 1, i);
    }
  }

  // ----- shifts by one -----

  lemma TopDigit(x: nat, p: nat)
    requires 0 < p && x < 2 * p
    ensures x / p == (if x >= p then 1 else 0) && x % p == (if x >= p then x - p else x)
    ensures 2 * x % (2 * p) == 2 * (x % p)
  {
    DivByOne(x, p);
    DivByOne(2 * x, 2 * p);
  }

  lemma DivByOne(x: nat, p: nat)
    requires 0 < p && x < 2 * p
    ensures x / p == (if x >= p then 1 else 0) && x % p == (if x >= p then x - p else x)
  {
    if x >= p {
      assert (x - p) / p == 0 && (x - p) % p == x - p;
      assert x == 1 * p + (x - p);
    }
  }

  lemma {:induction false} BitsFirst(x: nat, n: nat)
    requires n > 0 && x < Pow2(n)
    ensures BitsBE(x, n) == [x >= Pow2(n - 1)] + BitsBE(x % Pow2(n - 1), n - 1)
  {
    var p := Pow2(n - 1);
    assert Pow2(n) == 2 * p;
    hide Pow2, BitsBE;
    TopDigit(x, p);
    var hi := if x >= p then 1 else 0;
    BitsSplit(x, hi, x % p, 1, n - 1);
    BitsSplit1(hi, 1);
    BitsNone(hi / 2);
  }

  lemma {:induction false} BitsOfShl(x: nat, n: nat)
    requires n > 0 && x < Pow2(n)
    ensures BitsBE(2 * x % Pow2(n), n) == BitsBE(x, n)[1..] + [false]
  {
    var p := Pow2(n - 1);
    assert Pow2(n) == 2 * p;
    BitsFirst(x, n);
    hide Pow2, BitsBE;
    TopDigit(x, p);
    BitsSplit1(2 * (x % p), n);
  }

  lemma {:induction false} BitsOfShr(x: nat, n: nat)
    requires n > 0 && x < Pow2(n)
    ensures BitsBE(x / 2, n) == [false] + BitsBE(x, n)[..n - 1]
  {
    var p := Pow2(n - 1);
    assert Pow2(n) == 2 * p;
    BitsFirst(x / 2, n);
    hide Pow2, BitsBE;
    TopDigit(x / 2, p);
    BitsSplit1(x, n);
  }
}
