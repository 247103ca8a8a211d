/** `ReadBuffer`: blocks come from a generator and leave in pieces of any size. The position is
    kept in the first byte of the block, which has been read by then. */
module ReadBuffer {
  import opened Common
  import opened BlockSplit

  /** The blocks that successive calls of `gen_block` write, each overwriting its whole block. */
  type Generator = nat -> Block

  ghost predicate Generates(gen: Generator, bs: nat) {
    forall i: nat :: |gen(i)| == bs
  }

  /** Blocks number `a` to `b - 1`, joined. */
  function Stream(gen: Generator, a: nat, b: nat): seq<byte>
    requires a <= b
    decreases b
  {
    if a == b then [] else Stream(gen, a, b - 1) + gen(b - 1)
  }

  lemma {:induction false} StreamSplit(gen: Generator, a: nat, b: nat, c: nat)
    requires a <= b <= c
    ensures Stream(gen, a, c) == Stream(gen, a, b) + Stream(gen, b, c)
    decreases c
  {
    if b < c {
      StreamSplit(gen, a, b, c - 1);
      Assoc(Stream(gen, a, b), Stream(gen, b, c - 1), gen(c - 1));
    } else {
      assert Stream(gen, a, b) + [] == Stream(gen, a, b);
    }
  }

  lemma StreamOne(gen: Generator, a: nat)
    ensures Stream(gen, a, a + 1) == gen(a)
  {
    assert Stream(gen, a, a) == [];
    assert [] + gen(a) == gen(a);
  }

  lemma {:induction false} StreamLen(gen: Generator, bs: nat, a: nat, b: nat)
    requires a <= b && Generates(gen, bs)
    ensures |Stream(gen, a, b)| == (b - a) * bs
    decreases b
  {
    if a < b {
      StreamLen(gen, bs, a, b - 1);
      assert (b - a) * bs == (b - 1 - a) * bs + bs;
    }
  }

  /** How many blocks it takes to read `n` bytes when `rest` are left. */
  function BlocksNeeded(bs: nat, rest: nat, n: nat): nat
    requires bs > 0
  {
    if n <= rest then 0 else (n - rest + bs - 1) / bs
  }

  /** How many whole blocks fit into `len` bytes. */
  function WholeBlocks(len: nat, bs: nat): (nb: nat)
    requires bs > 0
    ensures nb * bs <= len < nb * bs + bs
  {
    assert len == (len / bs) * bs + len % bs;
    len / bs
  }

  class ReadBuffer {
    const bs: nat
    const buffer: array<byte>

    predicate Valid()
      reads this, buffer
    {
      1 <= bs <= 255 && buffer.Length == bs && 1 <= buffer[0] <= bs
    }

    function GetPos(): nat
      requires Valid()
      reads this, buffer
    {
      buffer[0]
    }

    /** The bytes that have been generated and not read. */
    function Rest(): (r: seq<byte>)
      requires Valid()
      reads this, buffer
      ensures |r| < bs
    {
      buffer[buffer[0]..]
    }

    constructor (bs: nat)
      requires 1 <= bs <= 255
      ensures Valid() && fresh(buffer) && this.bs == bs && Rest() == []
    {
      this.bs := bs;
      this.buffer := new byte[bs](_ => 0);
      new;
      buffer[0] := bs;
    }

    /** `read`: fills `out`; `calls` counts the calls of the generator. */
    method Read(out: array<byte>, gen: Generator, calls: nat) returns (calls': nat)
      requires Valid() && Generates(gen, bs) && out != buffer
      modifies buffer, out
      ensures Valid()
      ensures calls' == calls + BlocksNeeded(bs, |old(Rest())|, out.Length)
      ensures out[..] + Rest() == old(Rest()) + Stream(gen, calls, calls')
    {
      hide Stream, BlocksNeeded;
      ghost var rest := Rest();
      var pos := GetPos();
      var r := bs - pos;
      var n := out.Length;
      var start := 0;
      StreamNone(gen, calls);
      if r != 0 {
        if n < r {
          NoBlocksNeeded(bs, r, n);
          CopyInto(out, 0, buffer[pos..pos + n]);
          buffer[0] := pos + n;
          assert out[..] + Rest() == rest;
          assert rest + [] == rest;
          return calls;
        }
        CopyInto(out, 0, buffer[pos..]);
        start := r;
      }
      assert out[..start] == rest;
      assert rest + [] == rest;
      start, calls' := FillBlocks(out, start, gen, calls, rest);
      n := out.Length - start;
      NeededBlocks(bs, |rest|, out.Length, calls' - calls, n);
      if n != 0 {
        calls' := LastBlock(out, start, gen, calls, calls', rest);
      } else {
        buffer[0] := bs;
        assert out[..] == out[..start];
        assert out[..] + Rest() == out[..];
      }
    }

    /** The block that is only partly asked for goes into the buffer. */
    method LastBlock(out: array<byte>, start: nat, gen: Generator, calls: nat, now: nat, ghost rest: seq<byte>)
      returns (calls': nat)
      requires Valid() && Generates(gen, bs) && out != buffer && calls <= now
      requires start < out.Length < start + bs && out[..start] == rest + Stream(gen, calls, now)
      modifies buffer, out
      ensures Valid() && calls' == now + 1
      ensures out[..] + Rest() == rest + Stream(gen, calls, calls')
    {
      hide Stream;
      var n := out.Length - start;
      var block := gen(now);
      calls' := now + 1;
      ghost var done := out[..start];
      CopyInto(out, start, block[..n]);
      CopyInto(buffer, 0, block);
      buffer[0] := n;
      assert Rest() == block[n..] && out[..] == done + block[..n];
      Assoc(done, block[..n], block[n..]);
      assert block[..n] + block[n..] == block;
      StreamSplit(gen, calls, now, now + 1);
      StreamOne(gen, now);
      Assoc(rest, Stream(gen, calls, now), block);
    }

    /** The loop over the whole blocks of `to_blocks_mut`. */
    method FillBlocks(out: array<byte>, start: nat, gen: Generator, calls: nat, ghost rest: seq<byte>)
      returns (at: nat, calls': nat)
      requires bs > 0 && Generates(gen, bs) && start <= out.Length
      requires out[..start] == rest + Stream(gen, calls, calls)
      modifies out
      ensures calls' >= calls && at == start + (calls' - calls) * bs <= out.Length < at + bs
      ensures out[..at] == rest + Stream(gen, calls, calls')
    {
      hide Stream;
      var nb := WholeBlocks(out.Length - start, bs);
      hide WholeBlocks;
      at, calls' := start, calls;
      ghost var k := 0;
      while calls' < calls + nb
        invariant k == calls' - calls && 0 <= k <= nb
        invariant at == start + k * bs <= out.Length
        invariant out[..at] == rest + Stream(gen, calls, calls')
      {
        StepUp(k, nb, bs);
        OneMore(k, bs);
        FillOne(out, at, gen, calls, calls', rest);
        at, calls', k := at + bs, calls' + 1, k + 1;
      }
    }

    method FillOne(out: array<byte>, at: nat, gen: Generator, calls: nat, now: nat, ghost rest: seq<byte>)
      requires Generates(gen, bs) && calls <= now && at + bs <= out.Length
      requires out[..at] == rest + Stream(gen, calls, now)
      modifies out
      ensures out[..at + bs] == rest + Stream(gen, calls, now + 1)
    {
      hide Stream;
      var block := gen(now);
      ghost var done := out[..at];
      CopyInto(out, at, block);
      Prefix(out[..], done, block);
      StreamSplit(gen, calls, now, now + 1);
      StreamOne(gen, now);
      Assoc(rest, Stream(gen, calls, now), block);
    }

    /** `serialize`. */
    method Serialize() returns (res: Block)
      requires Valid()
      ensures res == Serialized(bs, Rest())
    {
      var pos := GetPos();
      res := buffer[..];
      var i := 1;
      while i < pos
        invariant 1 <= i <= pos && |res| == bs
        invariant forall j :: 0 <= j < bs ==> res[j] == if 1 <= j < i then 0 else buffer[j]
      {
        res := res[i := 0];
        i := i + 1;
      }
      PartsSerialize(bs, res);
      assert res[pos..] == Rest();
    }
  }

  lemma Prefix(now: seq<byte>, done: seq<byte>, block: seq<byte>)
    requires |done| + |block| <= |now| && done + block <= now
    ensures now[..|done| + |block|] == done + block
  {
  }

  lemma StreamNone(gen: Generator, a: nat)
    ensures Stream(gen, a, a) == []
  {
  }

  lemma NoBlocksNeeded(bs: nat, rest: nat, n: nat)
    requires bs > 0 && n <= rest
    ensures BlocksNeeded(bs, rest, n) == 0
  {
  }

  lemma NeededBlocks(bs: nat, rest: nat, n: nat, whole: nat, left: nat)
    requires bs > 0 && rest <= n && n == rest + whole * bs + left && left < bs
    ensures BlocksNeeded(bs, rest, n) == if left == 0 then whole else whole + 1
  {
    if left > 0 {
      assert (whole + 1) * bs == whole * bs + bs;
      DivUnique(n - rest + bs - 1, bs, whole + 1, left - 1);
    } else if whole > 0 {
      DivUnique(n - rest + bs - 1, bs, whole, bs - 1);
    } else {
      assert whole * bs == 0;
    }
  }

  /** Read stream refinement: for every sequence of sizes, the output is the prefix of the generated
      stream, and the generator is called as often as the total needs. */
  method ReadAll(bs: nat, sizes: seq<nat>, gen: Generator) returns (output: seq<byte>, calls: nat)
    requires 1 <= bs <= 255 && Generates(gen, bs)
    ensures |output| == Sum(sizes)
    ensures output <= Stream(gen, 0, calls)
    ensures calls == BlocksNeeded(bs, 0, Sum(sizes))
  {
    var b := new ReadBuffer(bs);
    output, calls := [], 0;
    var i := 0;
    while i < |sizes|
      invariant 0 <= i <= |sizes| && b.Valid() && b.bs == bs && fresh(b.buffer)
      invariant |output| + Sum(sizes[i..]) == Sum(sizes)
      invariant output + b.Rest() == Stream(gen, 0, calls)
    {
      ghost var rest, before := b.Rest(), calls;
      var out;
      out, calls := ReadOne(b, sizes[i], gen, calls);
      StreamSplit(gen, 0, before, calls);
      Assoc(output, rest, Stream(gen, before, calls));
      Assoc(output, out, b.Rest());
      output := output + out;
      assert sizes[i..][1..] == sizes[i + 1..];
      i := i + 1;
    }
    StreamLen(gen, bs, 0, calls);
    TotalCalls(bs, |output|, |b.Rest()|, calls);
  }

  function Sum(ns: seq<nat>): nat {
    if ns == [] then 0 else ns[0] + Sum(ns[1..])
  }

  lemma TotalCalls(bs: nat, total: nat, rest: nat, calls: nat)
    requires rest < bs && total + rest == calls * bs
    ensures calls == BlocksNeeded(bs, 0, total)
  {
    if calls == 0 {
    } else if total == 0 {
      StepUp(0, calls, bs);
    } else {
      DivUnique(total + bs - 1, bs, calls, bs - 1 - rest);
    }
  }

  // ----- saving and restoring -----

  function Serialized(bs: nat, rest: seq<byte>): (s: Block)
    requires bs <= 255 && |rest| < bs
    ensures |s| == bs
  {
    [bs - |rest|] + (Zeros(bs - |rest| - 1) + rest)
  }

  ghost predicate IsSerialized(bs: nat, s: Block)
    requires bs <= 255
  {
    exists rest: seq<byte> :: |rest| < bs && Serialized(bs, rest) == s
  }

  lemma SerializedInjective(bs: nat, a: seq<byte>, b: seq<byte>)
    requires bs <= 255 && |a| < bs && |b| < bs && Serialized(bs, a) == Serialized(bs, b)
    ensures a == b
  {
    var s := Serialized(bs, a);
    assert s[0] == bs - |a| == bs - |b|;
    assert a == s[bs - |a|..] && b == s[bs - |b|..];
  }

  /** The checks that `deserialize` makes are the right ones. */
  lemma AcceptedIff(bs: nat, s: Block)
    requires 1 <= bs <= 255 && |s| == bs
    ensures IsSerialized(bs, s) <==> 1 <= s[0] <= bs && forall i :: 1 <= i < s[0] ==> s[i] == 0
  {
    if IsSerialized(bs, s) {
      var rest: seq<byte> :| |rest| < bs && Serialized(bs, rest) == s;
      SerializedParts(bs, rest);
    }
    if 1 <= s[0] <= bs && forall i :: 1 <= i < s[0] ==> s[i] == 0 {
      PartsSerialize(bs, s);
    }
  }

  lemma SerializedParts(bs: nat, rest: seq<byte>)
    requires bs <= 255 && |rest| < bs
    ensures var s := Serialized(bs, rest);
            s[0] == bs - |rest| && forall i :: 1 <= i < s[0] ==> s[i] == 0
  {
  }

  lemma PartsSerialize(bs: nat, s: Block)
    requires |s| == bs <= 255 && 1 <= bs && 1 <= s[0] <= bs && forall i :: 1 <= i < s[0] ==> s[i] == 0
    ensures Serialized(bs, s[s[0]..]) == s
  {
    var n := s[0];
    assert s[1..n] == Zeros(n - 1);
    assert s == [n] + (s[1..n] + s[n..]);
  }

  /** `deserialize`. */
  method Deserialize(bs: nat, s: Block) returns (r: ReadBuffer?)
    requires 1 <= bs <= 255 && |s| == bs
    ensures r != null <==> IsSerialized(bs, s)
    ensures r != null ==> fresh(r) && fresh(r.buffer) && r.Valid() && r.bs == bs && Serialized(bs, r.Rest()) == s
  {
    AcceptedIff(bs, s);
    var pos := s[0];
    if pos == 0 || pos > bs || exists i :: 1 <= i < pos && s[i] != 0 {
      return null;
    }
    r := new ReadBuffer(bs);
    forall i | 0 <= i < bs {
      r.buffer[i] := s[i];
    }
    assert r.Rest() == s[pos..];
    PartsSerialize(bs, s);
  }

  /** A read of `n` bytes into a new slice. */
  method ReadOne(b: ReadBuffer, n: nat, gen: Generator, calls: nat) returns (out: seq<byte>, end: nat)
    requires b.Valid() && Generates(gen, b.bs)
    modifies b.buffer
    ensures b.Valid() && |out| == n && end == calls + BlocksNeeded(b.bs, |old(b.Rest())|, n)
    ensures out + b.Rest() == old(b.Rest()) + Stream(gen, calls, end)
  {
    var slice := new byte[n](_ => 0);
    end := b.Read(slice, gen, calls);
    out := slice[..];
  }

  /** One run of reads, in terms of the unread bytes alone. */
  method ReadEach(b: ReadBuffer, sizes: seq<nat>, gen: Generator, calls: nat) returns (outs: seq<seq<byte>>, end: nat)
    requires b.Valid() && Generates(gen, b.bs)
    modifies b.buffer
    ensures b.Valid() && (outs, end) == Reads(b.bs, old(b.Rest()), sizes, gen, calls)
  {
    hide Reads, Stream, BlocksNeeded, PutBefore;
    outs, end := [], calls;
    var i := 0;
    ghost var whole := Reads(b.bs, b.Rest(), sizes, gen, calls);
    assert sizes[0..] == sizes;
    BeforeNothing(whole);
    while i < |sizes|
      invariant 0 <= i <= |sizes| && b.Valid()
      invariant whole == PutBefore(outs, Reads(b.bs, b.Rest(), sizes[i..], gen, end))
    {
      ghost var rest, before := b.Rest(), end;
      var out;
      out, end := ReadOne(b, sizes[i], gen, end);
      ReadsStep(b.bs, rest, sizes[i..], gen, before, out, b.Rest());
      assert sizes[i..][1..] == sizes[i + 1..];
      BeforeTwice(outs, out, Reads(b.bs, b.Rest(), sizes[i + 1..], gen, end));
      outs := outs + [out];
      i := i + 1;
    }
    ReadsNone(b.bs, b.Rest(), gen, end);
    assert sizes[i..] == [];
    BeforeNone(outs, end);
  }

  lemma ReadsNone(bs: nat, rest: seq<byte>, gen: Generator, calls: nat)
    requires bs > 0 && |rest| < bs && Generates(gen, bs)
    ensures Reads(bs, rest, [], gen, calls) == ([], calls)
  {
  }

  lemma ReadsStep(bs: nat, rest: seq<byte>, sizes: seq<nat>, gen: Generator, calls: nat,
                  out: seq<byte>, rest': seq<byte>)
    requires bs > 0 && |rest| < bs && |rest'| < bs && Generates(gen, bs) && sizes != [] && |out| == sizes[0]
    requires out + rest' == rest + Stream(gen, calls, calls + BlocksNeeded(bs, |rest|, sizes[0]))
    ensures Reads(bs, rest, sizes, gen, calls)
            == PutBefore([out], Reads(bs, rest', sizes[1..], gen, calls + BlocksNeeded(bs, |rest|, sizes[0])))
  {
    var all := rest + Stream(gen, calls, calls + BlocksNeeded(bs, |rest|, sizes[0]));
    assert all[..sizes[0]] == out && all[sizes[0]..] == rest';
  }

  lemma ReadLength(bs: nat, rest: seq<byte>, n: nat, gen: Generator, calls: nat)
    requires bs > 0 && |rest| < bs && Generates(gen, bs)
    ensures var all := rest + Stream(gen, calls, calls + BlocksNeeded(bs, |rest|, n));
            n <= |all| && |all| - n < bs
  {
    var k := BlocksNeeded(bs, |rest|, n);
    StreamLen(gen, bs, calls, calls + k);
    if n > |rest| {
      var a := n - |rest| + bs - 1;
      assert a == k * bs + a % bs;
    } else {
      assert k * bs == 0;
    }
  }

  /** The outputs and the number of generator calls, as a function of the unread bytes. */
  ghost function Reads(bs: nat, rest: seq<byte>, sizes: seq<nat>, gen: Generator, calls: nat): (seq<seq<byte>>, nat)
    requires bs > 0 && |rest| < bs && Generates(gen, bs)
    decreases |sizes|
  {
    if sizes == [] then ([], calls)
    else
      ReadLength(bs, rest, sizes[0], gen, calls);
      var next := calls + BlocksNeeded(bs, |rest|, sizes[0]);
      var all := rest + Stream(gen, calls, next);
      var (outs, end) := Reads(bs, all[sizes[0]..], sizes[1..], gen, next);
      ([all[..sizes[0]]] + outs, end)
  }

  /** Serialization is a bisimulation: the restored buffer reads on like the original. */
  method RestoreAndRead(b: ReadBuffer, sizes: seq<nat>, gen: Generator, calls: nat)
    returns (outs: seq<seq<byte>>, restored: seq<seq<byte>>, end: nat, end': nat)
    requires b.Valid() && Generates(gen, b.bs)
    modifies b.buffer
    ensures outs == restored && end == end'
    ensures (outs, end) == Reads(b.bs, old(b.Rest()), sizes, gen, calls)
  {
    var s := b.Serialize();
    var c := Deserialize(b.bs, s);
    SerializedInjective(b.bs, c.Rest(), b.Rest());
    restored, end' := ReadEach(c, sizes, gen, calls);
    outs, end := ReadEach(b, sizes, gen, calls);
  }
}
