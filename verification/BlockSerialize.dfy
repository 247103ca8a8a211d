/** Saving and restoring block buffers, and why stale bytes are never observable: everything a
    buffer does is a function of its kind, its size and its data. */
module BlockSerialize {
  import opened Common
  import opened BlockSplit
  import opened BlockBuffer
  import opened HashPadding

  function SerializedLen(kind: Kind, bs: nat): nat {
    if kind.Eager? then bs else bs + 1
  }

  /** The bytes that stand for a buffer holding `d`. */
  function Serialized(kind: Kind, bs: nat, d: seq<byte>): (s: seq<byte>)
    requires bs <= 255 && kind.Invariant(|d|, bs)
    ensures |s| == SerializedLen(kind, bs)
  {
    if kind.Eager? then d + Zeros(bs - 1 - |d|) + [|d|]
    else [|d|] + (d + Zeros(bs - |d|))
  }

  /** The bytes are those of some buffer. */
  ghost predicate IsSerialized(kind: Kind, bs: nat, s: seq<byte>)
    requires bs <= 255
  {
    exists d: seq<byte> :: kind.Invariant(|d|, bs) && Serialized(kind, bs, d) == s
  }

  lemma SerializedInjective(kind: Kind, bs: nat, d: seq<byte>, e: seq<byte>)
    requires bs <= 255 && kind.Invariant(|d|, bs) && kind.Invariant(|e|, bs)
    requires Serialized(kind, bs, d) == Serialized(kind, bs, e)
    ensures d == e
  {
    var s := Serialized(kind, bs, d);
    if kind.Eager? {
      assert s[bs - 1] == |d| == |e|;
      assert d == s[..|d|] && e == s[..|e|];
    } else {
      assert s[0] == |d| == |e|;
      assert d == s[1..1 + |d|] && e == s[1..1 + |e|];
    }
  }

  /** `serialize` of both kinds. */
  method Serialize(b: BlockBuffer) returns (res: seq<byte>)
    requires b.Valid()
    ensures res == Serialized(b.kind, b.bs, b.Data())
  {
    var pos := b.GetPos();
    if b.kind.Eager? {
      res := b.buffer[..];
      var i := pos;
      while i < b.bs - 1
        invariant pos <= i <= b.bs - 1 && |res| == b.bs
        invariant forall j :: 0 <= j < b.bs ==> res[j] == if pos <= j < i then 0 else b.buffer[j]
      {
        res := res[i := 0];
        i := i + 1;
      }
      assert res == b.buffer[..pos] + Zeros(b.bs - 1 - pos) + [pos];
    } else {
      res := [b.pos] + (b.buffer[..pos] + Zeros(b.bs - pos));
    }
  }

  /** `deserialize` of both kinds: it accepts exactly the bytes of some buffer, and restores that
      buffer's data. */
  method Deserialize(kind: Kind, bs: nat, bytes: seq<byte>) returns (r: BlockBuffer?)
    requires 1 <= bs <= 255 && |bytes| == SerializedLen(kind, bs)
    ensures r != null <==> IsSerialized(kind, bs, bytes)
    ensures r != null ==> fresh(r) && fresh(r.buffer) && r.Valid() && r.kind == kind && r.bs == bs
    ensures r != null ==> Serialized(kind, bs, r.Data()) == bytes
  {
    var pos := if kind.Eager? then bytes[bs - 1] else bytes[0];
    var block := if kind.Eager? then bytes else bytes[1..];
    var end := if kind.Eager? then bs - 1 else bs;
    AcceptedIff(kind, bs, bytes);
    if !kind.Invariant(pos, bs) {
      return null;
    }
    if exists i :: pos <= i < end && block[i] != 0 {
      return null;
    }
    r := new BlockBuffer(kind, bs);
    CopyInto(r.buffer, 0, block);
    r.SetPos(pos);
    assert r.Data() == block[..pos];
    RestoredData(kind, bs, bytes, pos, block);
  }

  lemma RestoredData(kind: Kind, bs: nat, bytes: seq<byte>, pos: byte, block: seq<byte>)
    requires 1 <= bs <= 255 && kind.Invariant(pos, bs)
    requires |block| == bs && bytes == if kind.Eager? then block else [pos] + block
    requires kind.Eager? ==> block[bs - 1] == pos
    requires forall i :: pos <= i < (if kind.Eager? then bs - 1 else bs) ==> block[i] == 0
    ensures Serialized(kind, bs, block[..pos]) == bytes
  {
    assert if kind.Eager? then block == block[..pos] + Zeros(bs - 1 - pos) + [pos]
           else block == block[..pos] + Zeros(bs - pos);
  }

  /** The checks that `deserialize` makes are the right ones. */
  lemma AcceptedIff(kind: Kind, bs: nat, bytes: seq<byte>)
    requires 1 <= bs <= 255 && |bytes| == SerializedLen(kind, bs)
    ensures var pos := if kind.Eager? then bytes[bs - 1] else bytes[0];
            var block := if kind.Eager? then bytes else bytes[1..];
            var end := if kind.Eager? then bs - 1 else bs;
            IsSerialized(kind, bs, bytes) <==>
              kind.Invariant(pos, bs) && !exists i :: pos <= i < end && block[i] != 0
  {
    var pos := if kind.Eager? then bytes[bs - 1] else bytes[0];
    var block := if kind.Eager? then bytes else bytes[1..];
    if IsSerialized(kind, bs, bytes) {
      var d: seq<byte> :| kind.Invariant(|d|, bs) && Serialized(kind, bs, d) == bytes;
      if kind.Lazy? {
        assert block == d + Zeros(bs - |d|);
      }
    }
    if kind.Invariant(pos, bs) {
      if kind.Eager? {
        EagerAccepted(bs, bytes);
      } else {
        LazyAccepted(bs, bytes);
      }
    }
  }

  lemma EagerAccepted(bs: nat, s: seq<byte>)
    requires 1 <= bs <= 255 && |s| == bs && s[bs - 1] < bs
    ensures (forall i :: s[bs - 1] <= i < bs - 1 ==> s[i] == 0) ==> IsSerialized(Eager, bs, s)
  {
    var d := s[..s[bs - 1]];
    if forall i :: s[bs - 1] <= i < bs - 1 ==> s[i] == 0 {
      assert s == d + Zeros(bs - 1 - |d|) + [|d|];
      assert Eager.Invariant(|d|, bs) && Serialized(Eager, bs, d) == s;
    }
  }

  lemma LazyAccepted(bs: nat, s: seq<byte>)
    requires 1 <= bs <= 255 && |s| == bs + 1 && s[0] <= bs
    ensures (forall i :: s[0] <= i < bs ==> s[1..][i] == 0) ==> IsSerialized(Lazy, bs, s)
  {
    var n, block := s[0], s[1..];
    if forall i :: n <= i < bs ==> block[i] == 0 {
      assert s == [n] + block;
      LazyBlock(bs, n, block);
      assert Lazy.Invariant(|block[..n]|, bs) && Serialized(Lazy, bs, block[..n]) == s;
    }
  }

  lemma LazyBlock(bs: nat, n: byte, block: Block)
    requires |block| == bs <= 255 && n <= bs && forall i :: n <= i < bs ==> block[i] == 0
    ensures Serialized(Lazy, bs, block[..n]) == [n] + block
  {
    assert block[n..] == Zeros(bs - n);
    assert block == block[..n] + block[n..];
  }

  // ----- every later run -----

  datatype Op =
    | Digest(input: seq<byte>)
    | Pad(delim: byte, suffix: seq<byte>)
    | PadZeros
    | Reset
    | Set(buf: Block, pos: nat)
    | Observe

  datatype Out = Blocks(blocks: seq<Block>) | State(pos: nat, data: seq<byte>, bytes: seq<byte>) | Nothing | Refused

  /** What the methods demand of their arguments, by an assertion or by the types. */
  predicate Legal(kind: Kind, bs: nat, op: Op) {
    match op
    case Pad(_, suffix) => kind.Eager? && |suffix| <= bs
    case Set(buf, pos) => |buf| == bs && kind.Invariant(pos, bs)
    case _ => true
  }

  /** One operation on the data alone. */
  function Step(kind: Kind, bs: nat, d: seq<byte>, op: Op): (Out, seq<byte>)
    requires 1 <= bs <= 255 && kind.Invariant(|d|, bs)
  {
    if !Legal(kind, bs, op) then (Refused, d)
    else match op
    case Digest(input) =>
      var (blocks, rest) := Split(kind, bs, d + input);
      (Blocks(blocks), rest)
    case Pad(delim, suffix) =>
      (Blocks(Split(Eager, bs, PaddedMessage(bs, d, delim, suffix)).0), [])
    case PadZeros => (Blocks([d + Zeros(bs - |d|)]), [])
    case Reset => (Nothing, [])
    case Set(buf, pos) => (Nothing, buf[..pos])
    case Observe => (State(|d|, d, Serialized(kind, bs, d)), d)
  }

  lemma StepInvariant(kind: Kind, bs: nat, d: seq<byte>, op: Op)
    requires 1 <= bs <= 255 && kind.Invariant(|d|, bs)
    ensures kind.Invariant(|Step(kind, bs, d, op).1|, bs)
  {
    if op.Digest? {
      SplitShape(kind, bs, d + op.input);
    }
  }

  function Run(kind: Kind, bs: nat, d: seq<byte>, ops: seq<Op>): (seq<Out>, seq<byte>)
    requires 1 <= bs <= 255 && kind.Invariant(|d|, bs)
    decreases |ops|
  {
    if ops == [] then ([], d)
    else
      StepInvariant(kind, bs, d, ops[0]);
      var (o, d') := Step(kind, bs, d, ops[0]);
      var (os, end) := Run(kind, bs, d', ops[1..]);
      ([o] + os, end)
  }

  /** One operation on the real buffer. */
  method Apply(b: BlockBuffer, op: Op) returns (o: Out)
    requires b.Valid()
    modifies b`pos, b.buffer
    ensures b.Valid() && (o, b.Data()) == Step(b.kind, b.bs, old(b.Data()), op)
  {
    ghost var d := b.Data();
    match op {
      case Digest(input) =>
        var calls := b.DigestBlocks(input);
        o := Blocks(Concat(calls));
      case Pad(delim, suffix) =>
        if b.kind.Lazy? || |suffix| > b.bs {
          return Refused;
        }
        var calls := b.DigestPad(delim, suffix);
        PadIsSplit(b.bs, d, delim, suffix, calls);
        o := Blocks(calls);
      case PadZeros =>
        var block := b.PadWithZeros();
        o := Blocks([block]);
      case Reset =>
        b.Reset();
        o := Nothing;
      case Set(buf, pos) =>
        if |buf| != b.bs || pos > b.bs || (b.kind.Eager? && pos == b.bs) {
          return Refused;
        }
        b.Set(buf, pos);
        o := Nothing;
      case Observe =>
        var bytes := Serialize(b);
        o := State(b.GetPos(), b.Data(), bytes);
    }
  }

  lemma PadIsSplit(bs: nat, d: seq<byte>, delim: byte, suffix: seq<byte>, calls: seq<Block>)
    requires bs > 0 && forall c :: c in calls ==> |c| == bs
    requires var k := |calls| * bs - |d| - 1 - |suffix|;
             0 <= k < bs && Concat(calls) == d + [delim] + Zeros(k) + suffix
    ensures Split(Eager, bs, PaddedMessage(bs, d, delim, suffix)).0 == calls
  {
    var k := |calls| * bs - |d| - 1 - |suffix|;
    RunLength(bs, 0, |calls|, |d|, |d|, |suffix|, k);
    SplitOfBlocks(bs, calls);
  }

  method RunScript(b: BlockBuffer, ops: seq<Op>) returns (outs: seq<Out>)
    requires b.Valid()
    modifies b`pos, b.buffer
    ensures b.Valid() && (outs, b.Data()) == Run(b.kind, b.bs, old(b.Data()), ops)
  {
    outs := [];
    var i := 0;
    ghost var whole := Run(b.kind, b.bs, b.Data(), ops);
    assert ops[0..] == ops && [] + whole.0 == whole.0;
    while i < |ops|
      invariant 0 <= i <= |ops| && b.Valid()
      invariant whole.0 == outs + Run(b.kind, b.bs, b.Data(), ops[i..]).0
      invariant whole.1 == Run(b.kind, b.bs, b.Data(), ops[i..]).1
    {
      assert ops[i..][1..] == ops[i + 1..];
      var o := Apply(b, ops[i]);
      Assoc(outs, [o], Run(b.kind, b.bs, b.Data(), ops[i + 1..]).0);
      outs := outs + [o];
      i := i + 1;
    }
    assert outs + [] == outs;
  }

  /** Serialization is a bisimulation: every buffer serializes to bytes that are accepted, and the
      restored buffer gives the same results as the original on every later run. */
  method RestoreAndRun(b: BlockBuffer, ops: seq<Op>) returns (outs: seq<Out>, restored: seq<Out>)
    requires b.Valid()
    modifies b`pos, b.buffer
    ensures outs == restored == Run(b.kind, b.bs, old(b.Data()), ops).0
  {
    var bytes := Serialize(b);
    var c := Deserialize(b.kind, b.bs, bytes);
    SerializedInjective(b.kind, b.bs, c.Data(), b.Data());
    restored := RunScript(c, ops);
    outs := RunScript(b, ops);
  }
}
