/** `hex!`: string literals with hex digits, white space and comments, into an array of bytes. */
module HexLiteral {
  import opened Common
  import opened HexComments

  datatype Token = Literal(value: byte) | Comma

  type OrPanic<T> = Result<T, Panic>

  const QUOTE: byte := 34

  predicate IsSpace(c: byte) {
    c == 32 || c == 13 || c == 10 || c == 9
  }

  predicate IsHex(c: byte) {
    48 <= c <= 57 || 65 <= c <= 70 || 97 <= c <= 102
  }

  function HexValue(c: byte): (v: byte)
    requires IsHex(c)
    ensures v < 16
  {
    if c <= 57 then c - 48 else if c <= 70 then c - 55 else c - 87
  }

  // ----- what the iterators deliver -----

  /** The digits among visible bytes, and the panic that ends them, if any. */
  function Digits(bytes: seq<byte>, why: Option<Panic>): (seq<byte>, Option<Panic>)
    decreases |bytes|
  {
    if bytes == [] then ([], why)
    else if IsSpace(bytes[0]) then Digits(bytes[1..], why)
    else if IsHex(bytes[0]) then
      var (vs, end) := Digits(bytes[1..], why);
      ([HexValue(bytes[0])] + vs, end)
    else ([], Some(InvalidCharacter))
  }

  /** The digits that an iterator still has to deliver. */
  function DigitsLeft(st: CommentState, s: seq<byte>): (seq<byte>, Option<Panic>) {
    var (bytes, why) := Strip(st, s);
    Digits(bytes, why)
  }

  /** The tokens that a string of digits becomes. */
  function Tokens(vs: seq<byte>, why: Option<Panic>): OrPanic<seq<Token>>
    decreases |vs|
  {
    if vs == [] then (if why.Some? then Err(why.value) else Ok([]))
    else if |vs| == 1 then Err(if why.Some? then why.value else OddDigits)
    else if vs[0] >= 16 || vs[1] >= 16 then Err(InvalidCharacter)
    else
      var rest := Tokens(vs[2..], why);
      if rest.Err? then rest else Ok([Literal(vs[0] * 16 + vs[1]), Comma] + rest.value)
  }

  datatype Digit = Value(v: byte) | NoDigit | DigitPanics(why: Panic)

  datatype NextToken = TokenIs(t: Token) | NoToken | TokenPanics(why: Panic)

  class TokenTreeIter {
    const buf: ExcludingComments
    var isPunct: bool

    constructor (buf: ExcludingComments)
      ensures this.buf == buf && !isPunct
    {
      this.buf, this.isPunct := buf, false;
    }

    /** `next_hex_val`: the next digit, skipping white space. */
    method NextHexVal() returns (r: Digit)
      modifies buf
      ensures var (vs, why) := DigitsLeft(old(buf.state), old(buf.input));
              match r
              case Value(v) => vs != [] && v == vs[0] < 16 && DigitsLeft(buf.state, buf.input) == (vs[1..], why)
              case NoDigit => vs == [] && why == None && DigitsLeft(buf.state, buf.input) == ([], None)
              case DigitPanics(p) => vs == [] && why == Some(p)
    {
      hide Feed;
      ghost var bytes, why := Strip(buf.state, buf.input).0, Strip(buf.state, buf.input).1;
      while true
        invariant Strip(buf.state, buf.input) == (bytes, why)
        invariant Digits(bytes, why) == DigitsLeft(old(buf.state), old(buf.input))
        decreases |bytes|
      {
        var v := buf.Next();
        match v {
          case EndOfInput =>
            return NoDigit;
          case Panics(p) =>
            return DigitPanics(p);
          case Byte(b) =>
            if IsHex(b) {
              return Value(HexValue(b));
            }
            if !IsSpace(b) {
              return DigitPanics(InvalidCharacter);
            }
            bytes := bytes[1..];
        }
      }
    }

    /** `next`: bytes and commas in turn. */
    method Next() returns (r: NextToken)
      modifies this, buf
      ensures var (vs, why) := DigitsLeft(old(buf.state), old(buf.input));
              var left := DigitsLeft(buf.state, buf.input);
              if old(isPunct) then r == TokenIs(Comma) && !isPunct && left == (vs, why)
              else match r
                case TokenIs(t) =>
                  && |vs| >= 2 && vs[0] < 16 && vs[1] < 16 && t == Literal(vs[0] * 16 + vs[1])
                  && isPunct && left == (vs[2..], why)
                case NoToken => vs == [] && why == None
                case TokenPanics(p) =>
                  && |vs| < 2 && (vs == [] ==> why == Some(p))
                  && (|vs| == 1 ==> p == if why.Some? then why.value else OddDigits)
    {
      if isPunct {
        isPunct := false;
        return TokenIs(Comma);
      }
      hide DigitsLeft;
      ghost var vs := DigitsLeft(buf.state, buf.input).0;
      var p1 := NextHexVal();
      match p1 {
        case NoDigit => return NoToken;
        case DigitPanics(p) => return TokenPanics(p);
        case Value(v1) =>
          var p2 := NextHexVal();
          match p2 {
            case NoDigit => return TokenPanics(OddDigits);
            case DigitPanics(p) => return TokenPanics(p);
            case Value(v2) =>
              isPunct := true;
              assert vs[1..][1..] == vs[2..];
              return TokenIs(Literal(v1 * 16 + v2));
          }
      }
    }
  }

  /** The tokens of one literal, quotes included. */
  function LiteralTokens(text: seq<byte>): OrPanic<seq<Token>> {
    if |text| < 2 || text[0] != QUOTE || text[|text| - 1] != QUOTE then Err(NotAString)
    else
      var (vs, why) := DigitsLeft(Normal, text[1..|text| - 1]);
      Tokens(vs, why)
  }

  function HexTokens(literals: seq<seq<byte>>): OrPanic<seq<Token>> {
    if literals == [] then Ok([])
    else
      var first := LiteralTokens(literals[0]);
      if first.Err? then first
      else
        var rest := HexTokens(literals[1..]);
        if rest.Err? then rest else Ok(first.value + rest.value)
  }

  /** `TokenTreeIter::new` and the tokens that it yields until it ends. */
  method Collect(text: seq<byte>) returns (r: OrPanic<seq<Token>>)
    ensures r == LiteralTokens(text)
  {
    if |text| < 2 || text[0] != QUOTE || text[|text| - 1] != QUOTE {
      return Err(NotAString);
    }
    var chars := new ExcludingComments(text[..|text| - 1]);
    SkipQuote(text);
    var quote := chars.Next();
    var it := new TokenTreeIter(chars);
    ghost var (vs, why) := DigitsLeft(Normal, text[1..|text| - 1]);
    ghost var whole := Tokens(vs, why);
    var out: seq<Token> := [];
    assert whole.Ok? ==> [] + whole.value == whole.value;
    hide DigitsLeft;
    while true
      invariant it.buf == chars && fresh(it) && fresh(chars)
      invariant DigitsLeft(chars.state, chars.input) == (vs, why)
      invariant whole == Prepend(if it.isPunct then out + [Comma] else out, Tokens(vs, why))
      decreases |vs|, it.isPunct
    {
      ghost var punct := it.isPunct;
      var t := it.Next();
      match t {
        case NoToken =>
          assert out + [] == out;
          return Ok(out);
        case TokenPanics(p) =>
          return Err(p);
        case TokenIs(token) =>
          ghost var rest := if punct then Tokens(vs, why) else Tokens(vs[2..], why);
          if !punct {
            assert rest.Ok? ==> out + ([token, Comma] + rest.value) == (out + [token]) + [Comma] + rest.value;
            vs := vs[2..];
          }
          out := out + [token];
      }
    }
  }

  lemma SkipQuote(text: seq<byte>)
    requires |text| >= 2 && text[0] == QUOTE
    ensures Strip(Normal, text[..|text| - 1])
            == ([QUOTE] + Strip(Normal, text[1..|text| - 1]).0, Strip(Normal, text[1..|text| - 1]).1)
  {
    assert text[..|text| - 1][1..] == text[1..|text| - 1];
  }

  /** The loop of `hex` over its literals. */
  method Hex(literals: seq<seq<byte>>) returns (r: OrPanic<seq<Token>>)
    ensures r == HexTokens(literals)
  {
    var out: seq<Token> := [];
    var i := 0;
    ghost var whole := HexTokens(literals);
    assert literals[0..] == literals && (whole.Ok? ==> [] + whole.value == whole.value);
    while i < |literals|
      invariant 0 <= i <= |literals|
      invariant whole == Prepend(out, HexTokens(literals[i..]))
    {
      assert literals[i..][1..] == literals[i + 1..];
      var tokens := Collect(literals[i]);
      if tokens.Err? {
        return tokens;
      }
      ghost var rest := HexTokens(literals[i + 1..]);
      assert rest.Ok? ==> out + (tokens.value + rest.value) == (out + tokens.value) + rest.value;
      out := out + tokens.value;
      i := i + 1;
    }
    assert out + [] == out;
    return Ok(out);
  }

  // ----- every way to print a byte string -----

  /** The digits in order, "0123456789abcdef" and "0123456789ABCDEF". */
  const LOWER: seq<byte> := [48, 49, 50, 51, 52, 53, 54, 55, 56, 57, 97, 98, 99, 100, 101, 102]
  const UPPER: seq<byte> := [48, 49, 50, 51, 52, 53, 54, 55, 56, 57, 65, 66, 67, 68, 69, 70]

  /** The parser reads exactly the digits of the two tables, each with its place in the table. */
  lemma DigitTables(v: nat, c: byte)
    ensures v < 16 ==> IsHex(LOWER[v]) && HexValue(LOWER[v]) == v && IsHex(UPPER[v]) && HexValue(UPPER[v]) == v
    ensures IsHex(c) <==> c in LOWER || c in UPPER
  {
    if IsHex(c) {
      var i := HexValue(c);
      assert c == LOWER[i] || c == UPPER[i];
    }
  }

  /** What may stand in a literal: digits of either case, white space, and comments. */
  datatype Piece =
    | HexDigit(v: nat, upper: bool)
    | Space(c: byte)
    | Line(text: seq<byte>)
    | Block(text: seq<byte>)

  predicate ValidPiece(p: Piece) {
    match p
    case HexDigit(v, _) => v < 16
    case Space(c) => c in {32, 13, 10, 9}
    case Line(text) => 10 !in text
    case Block(text) => StaysOpen(text) && StarRun(text) % 2 == 0
  }

  /** A digit from its table, white space, `//`, a text and a newline, or a slash and a star, a text,
      a star and a slash. */
  function Render(p: Piece): seq<byte>
    requires ValidPiece(p)
  {
    match p
    case HexDigit(v, upper) => [if upper then UPPER[v] else LOWER[v]]
    case Space(c) => [c]
    case Line(text) => [47, 47] + text + [10]
    case Block(text) => [47, 42] + text + [42, 47]
  }

  function RenderAll(ps: seq<Piece>): seq<byte>
    requires forall i :: 0 <= i < |ps| ==> ValidPiece(ps[i])
  {
    if ps == [] then [] else Render(ps[0]) + RenderAll(ps[1..])
  }

  function DigitsOf(ps: seq<Piece>): seq<byte>
    requires forall i :: 0 <= i < |ps| ==> ValidPiece(ps[i])
  {
    if ps == [] then []
    else
      assert ValidPiece(ps[0]);
      (if ps[0].HexDigit? then [ps[0].v] else []) + DigitsOf(ps[1..])
  }

  /** What the automaton lets through. */
  function Visible(p: Piece): seq<byte>
    requires ValidPiece(p)
  {
    match p
    case Line(_) => [NEWLINE]
    case Block(_) => []
    case _ => Render(p)
  }

  lemma {:induction false} FeedLine(text: seq<byte>)
    requires NEWLINE !in text
    ensures Feed(LineComment, text) == Fed([], Some(LineComment))
  {
    if text != [] {
      assert text[0] in text;
      FeedLine(text[1..]);
    }
  }

  lemma FeedTwo(st: CommentState, a: byte, b: byte, s: seq<byte>)
    requires Step(st, a).Skip? && Step(Step(st, a).next, b).Skip?
    ensures Feed(st, [a, b] + s) == Feed(Step(Step(st, a).next, b).next, s)
  {
    var all := [a, b] + s;
    assert all[1..] == [b] + s && all[1..][1..] == s;
  }

  lemma FeedPiece(p: Piece)
    requires ValidPiece(p)
    ensures Feed(Normal, Render(p)) == Fed(Visible(p), Some(Normal))
  {
    match p {
      case HexDigit(v, _) =>
        DigitTables(v, 0);
        assert Render(p)[1..] == [];
      case Space(c) => assert [c][1..] == [];
      case Line(text) =>
        Assoc<byte>([SLASH, SLASH], text, [NEWLINE]);
        FeedTwo(Normal, SLASH, SLASH, text + [NEWLINE]);
        FeedLine(text);
        FeedOne(LineComment, text, NEWLINE);
      case Block(text) =>
        Assoc<byte>([SLASH, STAR], text, [STAR, SLASH]);
        FeedTwo(Normal, SLASH, STAR, text + [STAR, SLASH]);
        InsideComment(text);
        FeedAppend(BlockComment, text, [STAR, SLASH]);
        FeedTwo(BlockComment, STAR, SLASH, []);
        assert [STAR, SLASH] + [] == [STAR, SLASH];
    }
  }

  /** A last comment that the end of the literal ends. */
  function RenderEnd(tail: Option<seq<byte>>): seq<byte> {
    if tail.Some? then [47, 47] + tail.value else []
  }

  lemma {:induction false} DigitsOfPieces(ps: seq<Piece>, tail: Option<seq<byte>>)
    requires forall i :: 0 <= i < |ps| ==> ValidPiece(ps[i])
    requires tail.Some? ==> NEWLINE !in tail.value
    ensures DigitsLeft(Normal, RenderAll(ps) + RenderEnd(tail)) == (DigitsOf(ps), None)
  {
    var e := RenderEnd(tail);
    if ps == [] {
      assert RenderAll(ps) + e == e;
      if tail.Some? {
        FeedTwo(Normal, SLASH, SLASH, tail.value);
        FeedLine(tail.value);
      }
    } else {
      DigitsOfPieces(ps[1..], tail);
      Assoc(Render(ps[0]), RenderAll(ps[1..]), e);
      DigitsAfterPiece(ps[0], RenderAll(ps[1..]) + e);
    }
  }

  lemma {:induction false} DigitsAfterPiece(p: Piece, rest: seq<byte>)
    requires ValidPiece(p)
    ensures DigitsLeft(Normal, Render(p) + rest)
            == ((if p.HexDigit? then [p.v as byte] else []) + DigitsLeft(Normal, rest).0, DigitsLeft(Normal, rest).1)
  {
    FeedPiece(p);
    FeedAppend(Normal, Render(p), rest);
    DigitsOfVisible(p, Strip(Normal, rest).0, Strip(Normal, rest).1);
  }

  lemma DigitsOfVisible(p: Piece, rest: seq<byte>, why: Option<Panic>)
    requires ValidPiece(p)
    ensures Digits(Visible(p) + rest, why)
            == ((if p.HexDigit? then [p.v as byte] else []) + Digits(rest, why).0, Digits(rest, why).1)
  {
    if p.HexDigit? {
      DigitTables(p.v, 0);
    }
    var v := Visible(p);
    assert v == [] ==> v + rest == rest;
    assert v != [] ==> (v + rest)[1..] == rest;
    assert [] + Digits(rest, why).0 == Digits(rest, why).0;
  }

  /** The two digits of every byte. */
  function Nibbles(data: seq<byte>): seq<byte> {
    if data == [] then [] else [data[0] / 16, data[0] % 16] + Nibbles(data[1..])
  }

  /** Every byte, followed by one comma. */
  function WithCommas(data: seq<byte>): seq<Token> {
    if data == [] then [] else [Literal(data[0]), Comma] + WithCommas(data[1..])
  }

  lemma {:induction false} TokensOfNibbles(data: seq<byte>)
    ensures Tokens(Nibbles(data), None) == Ok(WithCommas(data))
  {
    if data != [] {
      TokensOfNibbles(data[1..]);
      assert Nibbles(data)[2..] == Nibbles(data[1..]);
    }
  }

  /** A literal that prints `data`. */
  ghost predicate Prints(text: seq<byte>, data: seq<byte>, ps: seq<Piece>, tail: Option<seq<byte>>) {
    && (forall i :: 0 <= i < |ps| ==> ValidPiece(ps[i]))
    && (tail.Some? ==> NEWLINE !in tail.value)
    && DigitsOf(ps) == Nibbles(data)
    && text == [34] + (RenderAll(ps) + RenderEnd(tail)) + [34]
  }

  lemma PrintedLiteral(text: seq<byte>, data: seq<byte>, ps: seq<Piece>, tail: Option<seq<byte>>)
    requires Prints(text, data, ps, tail)
    ensures LiteralTokens(text) == Ok(WithCommas(data))
  {
    assert text[1..|text| - 1] == RenderAll(ps) + RenderEnd(tail);
    DigitsOfPieces(ps, tail);
    TokensOfNibbles(data);
  }

  // ----- nothing else is accepted -----

  lemma {:induction false} NoPanicBefore(bytes: seq<byte>, why: Option<Panic>)
    requires Digits(bytes, why).1 == None
    ensures why == None
    ensures bytes != [] ==> IsSpace(bytes[0]) || IsHex(bytes[0])
  {
    if bytes != [] {
      NoPanicBefore(bytes[1..], why);
    }
  }

  /** The first newline of a text, or its end. */
  function FirstNewline(s: seq<byte>): (i: nat)
    ensures i <= |s| && NEWLINE !in s[..i] && (i < |s| ==> s[i] == NEWLINE)
  {
    if s == [] || s[0] == NEWLINE then 0
    else
      var i := 1 + FirstNewline(s[1..]);
      assert s[..i] == [s[0]] + s[1..][..i - 1];
      i
  }

  /** The first slash after an odd run of stars, or the end. */
  function FirstClose(s: seq<byte>, from: nat): (i: nat)
    requires from <= |s| && StaysOpen(s[..from])
    ensures i <= |s| && StaysOpen(s[..i]) && (i < |s| ==> s[i] == SLASH && StarRun(s[..i]) % 2 == 1)
    decreases |s| - from
  {
    if from == |s| || (s[from] == SLASH && StarRun(s[..from]) % 2 == 1) then from
    else
      assert forall k :: 0 <= k <= from ==> s[..from + 1][..k] == s[..from][..k] == s[..k];
      FirstClose(s, from + 1)
  }

  /** A line comment ends at a newline or lasts to the end. */
  lemma {:induction false} FirstLine(t: seq<byte>) returns (p: Option<Piece>, rest: seq<byte>)
    ensures p.Some? ==> ValidPiece(p.value) && [SLASH, SLASH] + t == Render(p.value) + rest && |rest| < |t|
    ensures p.None? ==> t == rest && NEWLINE !in rest
  {
    var i := FirstNewline(t);
    if i == |t| {
      assert t[..i] == t;
      return None, t;
    }
    rest := t[i + 1..];
    p := Some(Line(t[..i]));
    assert t == t[..i] + [NEWLINE] + rest;
    assert [SLASH, SLASH] + t == Render(p.value) + rest;
  }

  /** A block comment that ends has an end that the automaton recognises. */
  lemma {:induction false} FirstBlock(t: seq<byte>) returns (p: Piece, rest: seq<byte>)
    requires Ending(Feed(BlockComment, t).st) == None
    ensures ValidPiece(p) && [SLASH, STAR] + t == Render(p) + rest && |rest| < |t|
  {
    assert t[..0] == [];
    var i := FirstClose(t, 0);
    assert i < |t| by {
      if i == |t| {
        assert t[..i] == t;
        InsideComment(t);
      }
    }
    hide Feed, StarRun, StaysOpen;
    rest := t[i + 1..];
    var text := t[..i - 1];
    OneStarLess(t[..i]);
    assert t[..i][..i - 1] == text;
    p := Block(text);
    assert t == text + [STAR, SLASH] + rest;
    assert [SLASH, STAR] + t == Render(p) + rest;
  }

  lemma {:induction false} OneStarLess(t: seq<byte>)
    requires StaysOpen(t) && StarRun(t) % 2 == 1
    ensures t != [] && t[|t| - 1] == STAR
    ensures StaysOpen(t[..|t| - 1]) && StarRun(t[..|t| - 1]) % 2 == 0
  {
    var u := t[..|t| - 1];
    assert StarRun(t) == 1 + StarRun(u);
    hide StarRun;
    forall k | 0 <= k < |u| && u[k] == SLASH
      ensures StarRun(u[..k]) % 2 == 0
    {
      assert u[..k] == t[..k] && t[k] == SLASH;
    }
  }

  /** The first piece of a text that opens with a slash, unless it is a comment that lasts to the end. */
  lemma {:induction false} FirstComment(s: seq<byte>) returns (p: Option<Piece>, rest: seq<byte>)
    requires s != [] && s[0] == SLASH && Strip(Normal, s).1 == None
    ensures p.Some? ==> ValidPiece(p.value) && s == Render(p.value) + rest && |rest| < |s|
    ensures p.None? ==> s == [SLASH, SLASH] + rest && NEWLINE !in rest
  {
    assert |s| > 1 && (s[1] == SLASH || s[1] == STAR) by {
      assert Feed(Normal, s) == Feed(PotentialComment, s[1..]);
    }
    var t := s[2..];
    assert s == [SLASH, s[1]] + t;
    if s[1] == SLASH {
      p, rest := FirstLine(t);
    } else {
      FeedTwo(Normal, SLASH, STAR, t);
      var b, r := FirstBlock(t);
      p, rest := Some(b), r;
    }
  }

  /** A byte that is neither an error nor the start of a comment. */
  lemma OneByte(c: byte) returns (p: Piece)
    requires IsHex(c) || IsSpace(c)
    ensures ValidPiece(p) && Render(p) == [c]
  {
    if IsHex(c) {
      var v := HexValue(c);
      p := HexDigit(v, c == UPPER[v]);
    } else {
      p := Space(c);
    }
  }

  /** A text without a panic is made of pieces. */
  lemma {:induction false} Pieces(s: seq<byte>) returns (ps: seq<Piece>, tail: Option<seq<byte>>)
    requires DigitsLeft(Normal, s).1 == None
    ensures forall i :: 0 <= i < |ps| ==> ValidPiece(ps[i])
    ensures tail.Some? ==> NEWLINE !in tail.value
    ensures s == RenderAll(ps) + RenderEnd(tail)
    decreases |s|
  {
    if s == [] {
      return [], None;
    }
    NoPanicBefore(Strip(Normal, s).0, Strip(Normal, s).1);
    var p: Option<Piece>, rest := None, s[1..];
    if s[0] == SLASH {
      p, rest := FirstComment(s);
    } else {
      var one := OneByte(s[0]);
      p := Some(one);
      assert s == [s[0]] + rest;
    }
    if p.None? {
      tail := Some(rest);
      ps := [];
      assert s == [] + RenderEnd(tail);
    } else {
      DigitsAfterPiece(p.value, rest);
      ps, tail := Pieces(rest);
      Assoc(Render(p.value), RenderAll(ps), RenderEnd(tail));
      var all := [p.value] + ps;
      assert all[1..] == ps;
      ps := all;
    }
  }

  lemma {:induction false} BytesOf(vs: seq<byte>) returns (data: seq<byte>)
    requires Tokens(vs, None).Ok?
    ensures vs == Nibbles(data)
    decreases |vs|
  {
    data := [];
    if vs != [] {
      var rest := BytesOf(vs[2..]);
      data := [vs[0] * 16 + vs[1]] + rest;
      assert data[1..] == rest;
      assert vs == [vs[0], vs[1]] + vs[2..];
    }
  }

  lemma {:induction false} OkHasNoPanic(vs: seq<byte>, why: Option<Panic>)
    requires Tokens(vs, why).Ok?
    ensures why == None
    decreases |vs|
  {
    if vs != [] {
      OkHasNoPanic(vs[2..], why);
    }
  }

  lemma {:induction false} InnerIsPrinted(s: seq<byte>)
    returns (data: seq<byte>, ps: seq<Piece>, tail: Option<seq<byte>>)
    requires Tokens(DigitsLeft(Normal, s).0, DigitsLeft(Normal, s).1).Ok?
    ensures Prints([QUOTE] + s + [QUOTE], data, ps, tail)
  {
    hide Tokens, DigitsLeft, Nibbles, RenderAll, RenderEnd, DigitsOf, ValidPiece;
    var left := DigitsLeft(Normal, s);
    OkHasNoPanic(left.0, left.1);
    ps, tail := Pieces(s);
    DigitsOfPieces(ps, tail);
    data := BytesOf(left.0);
  }

  lemma {:induction false} AcceptedIsPrinted(text: seq<byte>)
    returns (data: seq<byte>, ps: seq<Piece>, tail: Option<seq<byte>>)
    requires LiteralTokens(text).Ok?
    ensures Prints(text, data, ps, tail)
  {
    hide Tokens, DigitsLeft, Prints;
    var s := text[1..|text| - 1];
    data, ps, tail := InnerIsPrinted(s);
    assert text == [QUOTE] + s + [QUOTE];
  }

  /** A literal is accepted if and only if it prints some bytes. */
  lemma {:induction false} AcceptedIff(text: seq<byte>)
    ensures LiteralTokens(text).Ok? <==> exists data, ps, tail :: Prints(text, data, ps, tail)
  {
    hide LiteralTokens, Prints;
    if LiteralTokens(text).Ok? {
      var data, ps, tail := AcceptedIsPrinted(text);
    }
    if exists data, ps, tail :: Prints(text, data, ps, tail) {
      var data, ps, tail :| Prints(text, data, ps, tail);
      PrintedLiteral(text, data, ps, tail);
    }
  }

  lemma {:induction false} WithCommasAppend(a: seq<byte>, b: seq<byte>)
    ensures WithCommas(a + b) == WithCommas(a) + WithCommas(b)
  {
    if a == [] {
      assert a + b == b;
    } else {
      WithCommasAppend(a[1..], b);
      assert (a + b)[0] == a[0] && (a + b)[1..] == a[1..] + b;
      Assoc([Literal(a[0]), Comma], WithCommas(a[1..]), WithCommas(b));
    }
  }

  /** The whole pipeline: literals that print byte strings, in any case and with any white space and
      comments between the digits, become each byte followed by a comma, all in one list. */
  lemma {:induction false} HexPipeline(texts: seq<seq<byte>>, datas: seq<seq<byte>>, pieces: seq<seq<Piece>>,
                                       tails: seq<Option<seq<byte>>>)
    requires |texts| == |datas| == |pieces| == |tails|
    requires forall i :: 0 <= i < |texts| ==> Prints(texts[i], datas[i], pieces[i], tails[i])
    ensures HexTokens(texts) == Ok(WithCommas(Concat(datas)))
  {
    if texts != [] {
      PrintedLiteral(texts[0], datas[0], pieces[0], tails[0]);
      HexPipeline(texts[1..], datas[1..], pieces[1..], tails[1..]);
      WithCommasAppend(datas[0], Concat(datas[1..]));
    }
  }
}
