/** The comment-stripping automaton of hex-literal. */
module HexComments {
  import opened Common

  datatype CommentState = Normal | PotentialComment | LineComment | BlockComment | PotentialBlockCommentEnd

  datatype Panic = IsolatedSlash | UnterminatedBlock | InvalidCharacter | OddDigits | NotAString

  const SLASH: byte := 47
  const STAR: byte := 42
  const NEWLINE: byte := 10

  datatype Move = Skip(next: CommentState) | Emit(next: CommentState) | Break

  /** The transition on one byte; `Emit` passes the byte on. */
  function Step(st: CommentState, b: byte): Move {
    match st
    case Normal => if b == SLASH then Skip(PotentialComment) else Emit(Normal)
    case PotentialComment =>
      if b == SLASH then Skip(LineComment) else if b == STAR then Skip(BlockComment) else Break
    case LineComment => if b == NEWLINE then Emit(Normal) else Skip(LineComment)
    case BlockComment => if b == STAR then Skip(PotentialBlockCommentEnd) else Skip(BlockComment)
    case PotentialBlockCommentEnd => if b == SLASH then Skip(Normal) else Skip(BlockComment)
  }

  /** What comes out of the automaton, and where it stands when the input ends or breaks it. */
  datatype Fed = Fed(out: seq<byte>, st: Option<CommentState>)

  function Feed(st: CommentState, s: seq<byte>): Fed
    decreases |s|
  {
    if s == [] then Fed([], Some(st))
    else match Step(st, s[0])
      case Break => Fed([], None)
      case Skip(next) => Feed(next, s[1..])
      case Emit(next) =>
        var rest := Feed(next, s[1..]);
        rest.(out := [s[0]] + rest.out)
  }

  /** The panic, if any, after the last byte that comes out. */
  function Ending(st: Option<CommentState>): Option<Panic> {
    match st
    case None => Some(IsolatedSlash)
    case Some(PotentialComment) => Some(IsolatedSlash)
    case Some(BlockComment) => Some(UnterminatedBlock)
    case Some(PotentialBlockCommentEnd) => Some(UnterminatedBlock)
    case _ => None
  }

  /** The visible bytes of an input, and how it ends. */
  function Strip(st: CommentState, s: seq<byte>): (seq<byte>, Option<Panic>) {
    (Feed(st, s).out, Ending(Feed(st, s).st))
  }

  datatype Fetched = Byte(b: byte) | EndOfInput | Panics(why: Panic)

  class ExcludingComments {
    var state: CommentState
    var input: seq<byte>        // what the inner iterator still holds

    constructor (input: seq<byte>)
      ensures state == Normal && this.input == input
    {
      this.state, this.input := Normal, input;
    }

    /** `next_byte`: a byte, nothing at the end of the input, or a panic. */
    method NextByte() returns (r: Fetched)
      modifies this
      ensures var was := Feed(old(state), old(input));
              match r
              case Byte(b) => was.out != [] && b == was.out[0] && Feed(state, input) == was.(out := was.out[1..])
              case EndOfInput => was == Fed([], Some(state)) && input == []
              case Panics(why) => was == Fed([], None) && why == IsolatedSlash
    {
      while input != []
        invariant Feed(state, input) == Feed(old(state), old(input))
        decreases |input|
      {
        var next := input[0];
        input := input[1..];
        match Step(state, next) {
          case Skip(st) =>
            state := st;
          case Emit(st) =>
            state := st;
            return Byte(next);
          case Break =>
            return Panics(IsolatedSlash);
        }
      }
      return EndOfInput;
    }

    /** `next`. */
    method Next() returns (r: Fetched)
      modifies this
      ensures var (bytes, why) := Strip(old(state), old(input));
              match r
              case Byte(b) => bytes != [] && b == bytes[0] && Strip(state, input) == (bytes[1..], why)
              case EndOfInput => bytes == [] && why == None && Strip(state, input) == ([], None)
              case Panics(p) => bytes == [] && why == Some(p)
    {
      r := NextByte();
      if r.EndOfInput? {
        match state {
          case BlockComment => return Panics(UnterminatedBlock);
          case PotentialBlockCommentEnd => return Panics(UnterminatedBlock);
          case PotentialComment => return Panics(IsolatedSlash);
          case _ =>
        }
      }
    }
  }

  // ----- composition -----

  lemma {:induction false} FeedAppend(st: CommentState, a: seq<byte>, b: seq<byte>)
    requires Feed(st, a).st.Some?
    ensures var rest := Feed(Feed(st, a).st.value, b);
            Feed(st, a + b) == Fed(Feed(st, a).out + rest.out, rest.st)
    decreases |a|
  {
    if a == [] {
      assert a + b == b;
      assert [] + Feed(st, b).out == Feed(st, b).out;
    } else {
      assert (a + b)[0] == a[0] && (a + b)[1..] == a[1..] + b;
      match Step(st, a[0]) {
        case Break =>
        case Skip(next) =>
          FeedAppend(next, a[1..], b);
        case Emit(next) =>
          FeedAppend(next, a[1..], b);
          var rest := Feed(next, a[1..]);
          Assoc([a[0]], rest.out, Feed(rest.st.value, b).out);
      }
    }
  }

  // ----- where a block comment ends -----

  /** How many stars `t` ends with. */
  function StarRun(t: seq<byte>): nat {
    if t == [] || t[|t| - 1] != STAR then 0 else 1 + StarRun(t[..|t| - 1])
  }

  /** A comment body in which no slash follows an odd run of stars. */
  predicate StaysOpen(t: seq<byte>) {
    forall i :: 0 <= i < |t| && t[i] == SLASH ==> StarRun(t[..i]) % 2 == 0
  }

  function InsideState(t: seq<byte>): CommentState {
    if StarRun(t) % 2 == 1 then PotentialBlockCommentEnd else BlockComment
  }

  lemma FeedOne(st: CommentState, a: seq<byte>, c: byte)
    requires Feed(st, a).st.Some?
    ensures match Step(Feed(st, a).st.value, c)
            case Break => Feed(st, a + [c]).st == None
            case Skip(next) => Feed(st, a + [c]) == Fed(Feed(st, a).out, Some(next))
            case Emit(next) => Feed(st, a + [c]) == Fed(Feed(st, a).out + [c], Some(next))
  {
    FeedAppend(st, a, [c]);
    var mid := Feed(st, a).st.value;
    assert [c][1..] == [];
    assert Step(mid, c).Skip? ==> Feed(mid, [c]) == Feed(Step(mid, c).next, []);
    assert Feed(st, a).out + [] == Feed(st, a).out;
  }

  /** Inside a comment the automaton remembers whether the run of stars is odd. */
  lemma {:induction false} InsideComment(t: seq<byte>)
    requires StaysOpen(t)
    ensures Feed(BlockComment, t) == Fed([], Some(InsideState(t)))
    decreases |t|
  {
    if t != [] {
      var n := |t| - 1;
      var u, c := t[..n], t[n];
      assert forall i :: 0 <= i < n ==> u[..i] == t[..i];
      InsideComment(u);
      FeedOne(BlockComment, u, c);
      assert t == u + [c];
      assert t[..n] == u;
    }
  }

  /** A block comment closes exactly at a slash that follows an odd run of stars. */
  lemma CommentCloses(t: seq<byte>)
    requires StaysOpen(t)
    ensures Feed(BlockComment, t + [SLASH]).st == Some(Normal) <==> StarRun(t) % 2 == 1
    ensures Feed(BlockComment, t + [STAR, SLASH]).st == Some(Normal) <==> StarRun(t) % 2 == 0
  {
    InsideComment(t);
    FeedOne(BlockComment, t, SLASH);
    FeedOne(BlockComment, t, STAR);
    FeedOne(BlockComment, t + [STAR], SLASH);
    assert t + [STAR, SLASH] == (t + [STAR]) + [SLASH];
  }

  /** A star directly followed by a slash. */
  predicate HasEnd(t: seq<byte>) {
    exists i :: 0 <= i < |t| - 1 && t[i] == STAR && t[i + 1] == SLASH
  }

  lemma NoEndStaysOpen(t: seq<byte>)
    requires !HasEnd(t)
    ensures StaysOpen(t)
  {
    forall i | 0 <= i < |t| && t[i] == SLASH
      ensures StarRun(t[..i]) == 0
    {
      if i > 0 {
        var k := i - 1;
        assert t[k + 1] == SLASH && t[k] != STAR;
        assert t[..i][i - 1] == t[k];
      }
    }
  }

  /** The documented end, the first star and slash, is the automaton's end exactly when an even
      number of stars precedes it. */
  lemma FirstEndCloses(t: seq<byte>)
    requires !HasEnd(t)
    ensures Feed(BlockComment, t + [STAR, SLASH]).st == Some(Normal) <==> StarRun(t) % 2 == 0
  {
    NoEndStaysOpen(t);
    CommentCloses(t);
  }

  /** So a comment of three stars stays open. */
  lemma ThreeStarsStayOpen()
    ensures Strip(Normal, [47, 42, 42, 42, 47]) == ([], Some(UnterminatedBlock))
  {
    var t: seq<byte> := [STAR];
    assert t[..0] == [] && StarRun(t) == 1 + StarRun(t[..0]);
    FirstEndCloses(t);
    InsideComment(t);
    var s: seq<byte> := [SLASH, STAR, STAR, STAR, SLASH];
    assert s[1..] == [STAR, STAR, STAR, SLASH] && s[1..][1..] == [STAR, STAR, SLASH];
    assert t + [STAR, SLASH] == s[1..][1..];
    FeedOne(BlockComment, t, STAR);
    FeedOne(BlockComment, t + [STAR], SLASH);
    assert (t + [STAR]) + [SLASH] == s[1..][1..];
    assert Feed(Normal, s) == Feed(PotentialComment, s[1..]);
    assert Feed(PotentialComment, s[1..]) == Feed(BlockComment, s[1..][1..]);
  }
}
