/** Git-flavoured variable-length quantities of at most four bytes: seven bits a byte, most
    significant first, the top bit set on all bytes but the last, and one added at each carry so
    that every number has one code. */
module Vlq {
  import opened Common

  datatype Error = InvalidVlq | InvalidIndex | UnexpectedEnd | NotEnoughElements

  type OrError<T> = Result<T, Error>

  const MAX: nat := 270549119

  /** The complete codes. */
  predicate IsCode(c: seq<byte>) {
    && 1 <= |c| <= 4
    && (forall i :: 0 <= i < |c| - 1 ==> c[i] >= 128)
    && c[|c| - 1] < 128
  }

  /** The number that the bytes denote. */
  function Value(c: seq<byte>): nat
    requires c != []
  {
    if |c| == 1 then c[0] % 128
    else (Value(c[..|c| - 1]) + 1) * 128 + c[|c| - 1] % 128
  }

  /** `v` in bytes that all announce another byte. */
  function Leading(v: nat): seq<byte> {
    (if v < 128 then [] else Leading(v / 128 - 1)) + [128 + v % 128]
  }

  function Code(v: nat): (c: seq<byte>)
    ensures c != []
  {
    (if v < 128 then [] else Leading(v / 128 - 1)) + [v % 128]
  }

  /** How many bytes the code of `v` takes. */
  function CodeLen(v: nat): nat {
    if v < 128 then 1 else if v < 16512 then 2 else if v < 2113664 then 3 else if v <= MAX then 4 else 5
  }

  // ----- the bijection -----

  lemma Split128(q: nat, r: nat)
    requires r < 128
    ensures (q * 128 + r) / 128 == q && (q * 128 + r) % 128 == r
  {
  }

  lemma ValueAppend(c: seq<byte>, b: byte)
    requires c != []
    ensures Value(c + [b]) == (Value(c) + 1) * 128 + b % 128
  {
    var d := c + [b];
    assert d[..|d| - 1] == c;
  }

  lemma {:induction false} LeadingIs(v: nat)
    ensures Leading(v) != [] && Value(Leading(v)) == v
    ensures forall i :: 0 <= i < |Leading(v)| ==> Leading(v)[i] >= 128
  {
    hide Leading, Value;
    LeadingStep(v);
    ValueOne(128 + v % 128);
    assert [] + [128 + v % 128] == [128 + v % 128];
    if v >= 128 {
      var w := v / 128 - 1;
      LeadingIs(w);
      ValueAppend(Leading(w), 128 + v % 128);
    }
  }

  lemma ValueOne(b: byte)
    ensures Value([b]) == b % 128
  {
  }

  lemma CompleteCode(l: seq<byte>, b: byte)
    requires b < 128 && forall i :: 0 <= i < |l| ==> l[i] >= 128
    ensures IsCode(l + [b]) <==> |l| <= 3
  {
  }

  lemma LeadingLen(v: nat)
    ensures v < 128 ==> |Leading(v)| == 1
    ensures 128 <= v < 16512 ==> |Leading(v)| == 2
    ensures 16512 <= v < 2113664 ==> |Leading(v)| == 3
    ensures v >= 2113664 ==> |Leading(v)| > 3
  {
    if v >= 128 {
      var w := v / 128 - 1;
      assert |Leading(v)| == |Leading(w)| + 1;
      if w >= 128 {
        var y := w / 128 - 1;
        assert |Leading(w)| == |Leading(y)| + 1;
        if y >= 128 {
          assert |Leading(y)| == |Leading(y / 128 - 1)| + 1;
          assert |Leading(y / 128 - 1)| >= 1;
        }
      }
    }
  }

  /** Every number up to `MAX` has a complete code, which denotes it. */
  lemma CodeDenotes(v: nat)
    ensures Value(Code(v)) == v
    ensures v <= MAX <==> IsCode(Code(v))
    ensures v <= MAX ==> |Code(v)| == CodeLen(v)
  {
    if v >= 128 {
      hide Leading, IsCode, Value;
      var w := v / 128 - 1;
      LeadingIs(w);
      LeadingLen(w);
      ValueAppend(Leading(w), v % 128);
      CompleteCode(Leading(w), v % 128);
    }
  }

  lemma {:induction false} ValueLeading(c: seq<byte>)
    requires c != [] && forall i :: 0 <= i < |c| ==> c[i] >= 128
    ensures Leading(Value(c)) == c
  {
    hide Leading;
    var n := |c| - 1;
    if n == 0 {
      LeadingOne(c[0]);
      assert c == [c[0]];
    } else {
      ValueLeading(c[..n]);
      LeadingAppend(Value(c[..n]), c[n]);
      assert c == c[..n] + [c[n]];
    }
  }

  lemma LeadingOne(b: byte)
    requires b >= 128
    ensures Leading(b % 128) == [b]
  {
    assert 128 + b % 128 == b;
  }

  lemma LeadingAppend(w: nat, b: byte)
    requires b >= 128
    ensures Leading((w + 1) * 128 + b % 128) == Leading(w) + [b]
  {
    assert 128 + b % 128 == b;
    Split128(w + 1, b % 128);
  }

  lemma CodeAppend(w: nat, b: byte)
    requires b < 128
    ensures Code((w + 1) * 128 + b) == Leading(w) + [b]
  {
    hide Leading;
    var v := (w + 1) * 128 + b;
    Split128(w + 1, b);
    assert v / 128 - 1 == w && v % 128 == b;
  }

  lemma CodeOne(b: byte)
    requires b < 128
    ensures Code(b) == [b] && b % 128 == b
  {
  }

  /** Every complete code is the code of the number that it denotes. */
  lemma DenotesCode(c: seq<byte>)
    requires IsCode(c)
    ensures Code(Value(c)) == c
    ensures Value(c) <= MAX
  {
    hide Leading, Code;
    var n := |c| - 1;
    if n == 0 {
      CodeOne(c[0]);
      assert c == [c[0]];
    } else {
      ValueLeading(c[..n]);
      CodeAppend(Value(c[..n]), c[n]);
      assert c[n] % 128 == c[n];
      assert c == c[..n] + [c[n]];
    }
    CodeDenotes(Value(c));
  }

  /** No complete code is a proper prefix of another. */
  lemma PrefixFree(a: seq<byte>, b: seq<byte>)
    requires IsCode(a) && IsCode(b) && a <= b
    ensures a == b
  {
    assert a[|a| - 1] == b[|a| - 1];
  }

  lemma LenMonotone(v: nat, w: nat)
    requires v <= w <= MAX
    ensures |Code(v)| <= |Code(w)|
  {
    CodeDenotes(v);
    CodeDenotes(w);
  }

  // ----- reading -----

  /** Reads at most `left` more bytes at `pos`, with `acc` carried over from the bytes before. */
  function ReadFrom(data: seq<byte>, pos: nat, left: nat, acc: nat): (OrError<nat>, nat)
    requires left > 0
    decreases left
  {
    if pos >= |data| then (Err(UnexpectedEnd), pos)
    else
      var v := acc + data[pos] % 128;
      if data[pos] < 128 then (Ok(v), pos + 1)
      else if left == 1 then (Err(InvalidVlq), pos + 1)
      else ReadFrom(data, pos + 1, left - 1, (v + 1) * 128)
  }

  function Read(data: seq<byte>, pos: nat): (OrError<nat>, nat) {
    ReadFrom(data, pos, 4, 0)
  }

  lemma {:induction false} ReadFromCode(data: seq<byte>, start: nat, pos: nat, left: nat, acc: nat, c: seq<byte>)
    requires IsCode(c) && start <= pos && start + |c| <= |data| && data[start..start + |c|] == c
    requires pos - start + left == 4 && pos < start + |c|
    requires acc == if pos == start then 0 else (Value(c[..pos - start]) + 1) * 128
    ensures ReadFrom(data, pos, left, acc) == (Ok(Value(c)), start + |c|)
    decreases left
  {
    var k := pos - start;
    assert data[pos] == c[k];
    assert c[..k + 1][..k] == c[..k];
    if k == |c| - 1 {
      assert c[..k + 1] == c;
    } else {
      ReadFromCode(data, start, pos + 1, left - 1, (acc + data[pos] % 128 + 1) * 128, c);
    }
  }

  /** Reading a complete code returns its number, consumes exactly the code and does not look at
      the bytes that follow. */
  lemma ReadCode(data: seq<byte>, pos: nat, c: seq<byte>)
    requires IsCode(c) && pos + |c| <= |data| && data[pos..pos + |c|] == c
    ensures Read(data, pos) == (Ok(Value(c)), pos + |c|)
  {
    ReadFromCode(data, pos, pos, 4, 0, c);
  }

  lemma {:induction false} ReadFromStops(data: seq<byte>, start: nat, pos: nat, left: nat, acc: nat)
    requires start <= pos && (start == pos || pos <= |data|) && pos - start + left == 4 && left > 0
    requires forall i :: start <= i < pos ==> data[i] >= 128
    ensures var (r, end) := ReadFrom(data, pos, left, acc);
            match r
            case Ok(_) => pos < end <= |data| && IsCode(data[start..end])
            case Err(e) =>
              && (e == UnexpectedEnd || e == InvalidVlq)
              && (e == InvalidVlq ==> end == start + 4 <= |data|)
              && (e == UnexpectedEnd ==> (end == start >= |data|) || (start <= end == |data| < start + 4))
              && forall i :: start <= i < end && i < |data| ==> data[i] >= 128
    decreases left
  {
    if pos < |data| && data[pos] >= 128 && left > 1 {
      ReadFromStops(data, start, pos + 1, left - 1, (acc + data[pos] % 128 + 1) * 128);
    }
  }

  /** A read succeeds exactly on the complete codes; it reports the end of the data when the data
      end inside a code, and an invalid number when four bytes in a row announce another. */
  lemma ReadSpec(data: seq<byte>, pos: nat)
    ensures var (r, end) := Read(data, pos);
            match r
            case Ok(v) => pos < end <= |data| && IsCode(data[pos..end]) && v == Value(data[pos..end])
            case Err(e) =>
              && (e == UnexpectedEnd || e == InvalidVlq)
              && (e == InvalidVlq ==> end == pos + 4 <= |data|)
              && (e == UnexpectedEnd ==> (end == pos >= |data|) || (pos <= end == |data| < pos + 4))
              && forall i :: pos <= i < end && i < |data| ==> data[i] >= 128
  {
    ReadFromStops(data, pos, pos, 4, 0);
    var (r, end) := Read(data, pos);
    if r.Ok? {
      ReadCode(data, pos, data[pos..end]);
    }
  }

  /** `read_vlq`: the first byte and three unrolled steps. */
  method ReadVlq(data: seq<byte>, pos: nat) returns (r: OrError<nat>, next: nat)
    ensures (r, next) == Read(data, pos)
  {
    next := pos;
    if next >= |data| {
      return Err(UnexpectedEnd), next;
    }
    var b := data[next];
    next := next + 1;
    var more: bool, val: nat := b >= 128, b % 128;

    if !more {
      return Ok(val), next;
    }
    if next >= |data| {
      return Err(UnexpectedEnd), next;
    }
    b := data[next];
    next := next + 1;
    more, val := b >= 128, (val + 1) * 128 + b % 128;

    if !more {
      return Ok(val), next;
    }
    if next >= |data| {
      return Err(UnexpectedEnd), next;
    }
    b := data[next];
    next := next + 1;
    more, val := b >= 128, (val + 1) * 128 + b % 128;

    if !more {
      return Ok(val), next;
    }
    if next >= |data| {
      return Err(UnexpectedEnd), next;
    }
    b := data[next];
    next := next + 1;
    more, val := b >= 128, (val + 1) * 128 + b % 128;

    if more {
      return Err(InvalidVlq), next;
    }
    return Ok(val), next;
  }

  lemma LeadingStep(v: nat)
    ensures Leading(v) == (if v < 128 then [] else Leading(v / 128 - 1)) + [128 + v % 128]
  {
  }

  /** `encode_vlq`: fills `buf` from its end; the code is `buf[start..]`. A number above `MAX`
      panics. */
  method EncodeVlq(v: nat, buf: array<byte>) returns (start: Option<nat>)
    requires buf.Length == 4
    modifies buf
    ensures start.Some? <==> v <= MAX
    ensures start.Some? ==> start.value <= 4 && buf[start.value..] == Code(v)
  {
    hide Leading;
    var val := v;
    buf[3] := val % 128;
    val := val / 128;
    if val == 0 {
      return Some(3);
    }

    val := val - 1;
    ghost var w := val;
    LeadingStep(w);
    assert Code(v) == Leading(w) + [buf[3]];
    buf[2] := 128 + val % 128;
    val := val / 128;
    if val == 0 {
      assert Leading(w) == [buf[2]];
      return Some(2);
    }

    val := val - 1;
    ghost var y := val;
    LeadingStep(y);
    assert Leading(w) == Leading(y) + [buf[2]];
    buf[1] := 128 + val % 128;
    val := val / 128;
    if val == 0 {
      assert Leading(y) == [buf[1]];
      return Some(1);
    }

    val := val - 1;
    assert Leading(y) == Leading(val) + [buf[1]];
    ghost var z := val;
    LeadingStep(z);
    buf[0] := 128 + val % 128;
    val := val / 128;
    if val == 0 {
      assert Leading(z) == [buf[0]];
      assert buf[0..] == [buf[0]] + [buf[1]] + [buf[2]] + [buf[3]];
      return Some(0);
    }
    return None;
  }
}
