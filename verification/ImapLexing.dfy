/** Tokens of IMAP responses, as the lexer's generators yield them. */
module ImapLexing {
  import opened Common

  type Token = seq<byte>

  const SPACE: byte := 32
  const DQUOTE: byte := 34
  const PERCENT: byte := 37
  const OPEN_PAREN: byte := 40
  const CLOSE_PAREN: byte := 41
  const OPEN_SQUARE: byte := 91
  const BACKSLASH: byte := 92
  const CLOSE_SQUARE: byte := 93
  const OPEN_BRACE: byte := 123
  const CLOSE_BRACE: byte := 125

  predicate IsSpecial(b: byte) {
    b == SPACE || b == OPEN_PAREN || b == CLOSE_PAREN || b == PERCENT || b == DQUOTE || b == OPEN_SQUARE
  }

  /** Any byte but the specials and the control characters. */
  predicate IsWordChar(b: byte) {
    b >= 32 && !IsSpecial(b)
  }

  predicate IsWhitespace(b: byte) {
    b == SPACE || b == 9 || b == 13 || b == 10
  }

  datatype LexError = NoClosing(endChar: byte) | QuoteInsideWord | RecordWithoutMarker

  /** A response record: a plain line, or a line that ends in a literal marker, with the literal. */
  datatype Record = Line(text: seq<byte>) | WithLiteral(text: seq<byte>, literal: seq<byte>)

  /** A token, and for tokens that look like a literal marker the literal of the record they come from. */
  datatype Tok = Tok(token: Token, literal: Option<seq<byte>>)

  /** A lazily consumed token stream: the tokens it yields, then its end or an error. */
  datatype Lexed = Lexed(toks: seq<Tok>, error: Option<LexError>)

  function Append(toks: seq<Tok>, rest: Lexed): Lexed {
    Lexed(toks + rest.toks, rest.error)
  }

  predicate IsMarker(token: Token) {
    token != [] && token[0] == OPEN_BRACE
  }

  /** The token as the parser sees it: it asks for the current literal at a marker only. */
  function Seen(token: Token, literal: Option<seq<byte>>): Tok {
    Tok(token, if IsMarker(token) then literal else None)
  }

  // ----- read_until

  /** The bytes up to and including `endChar`, escapes resolved, and what follows; None if it is missing. */
  function ReadUntil(s: seq<byte>, endChar: byte, escape: bool): (r: Option<(seq<byte>, seq<byte>)>)
    ensures r.Some? ==> |r.value.1| < |s|
    decreases |s|
  {
    if s == [] then None
    else if escape && s[0] == BACKSLASH then
      if |s| == 1 then None
      else
        match ReadUntil(s[2..], endChar, escape)
        case None => None
        case Some(r) =>
          Some((if s[1] != BACKSLASH && s[1] != endChar then [BACKSLASH, s[1]] + r.0 else [s[1]] + r.0, r.1))
    else if s[0] == endChar then Some(([endChar], s[1..]))
    else
      match ReadUntil(s[1..], endChar, escape)
      case None => None
      case Some(r) => Some(([s[0]] + r.0, r.1))
  }

  // ----- read_token_stream

  function SkipWhitespace(s: seq<byte>): (r: seq<byte>)
    ensures |r| <= |s|
  {
    if s != [] && IsWhitespace(s[0]) then SkipWhitespace(s[1..]) else s
  }

  /** One turn of the outer loop of read_token_stream: the tokens it yields (one, or a word and a
      punctuation character) and the text that remains. */
  datatype Turn = End | Fail(error: LexError) | Yield(tokens: seq<Token>, rest: seq<byte>)

  function Accumulate(s: seq<byte>, token: Token): (t: Turn)
    ensures t.Yield? ==> |t.rest| <= |s| && (token == [] ==> |t.rest| < |s|)
    decreases |s|
  {
    if s == [] then (if token == [] then End else Yield([token], []))
    else
      var c := s[0];
      if IsWordChar(c) then Accumulate(s[1..], token + [c])
      else if c == OPEN_SQUARE then
        match ReadUntil(s[1..], CLOSE_SQUARE, false)
        case None => Fail(NoClosing(CLOSE_SQUARE))
        case Some(r) => Accumulate(r.1, token + [c] + r.0)
      else if IsWhitespace(c) then Yield([token], s[1..])
      else if c == DQUOTE then
        if token != [] then Fail(QuoteInsideWord)
        else
          match ReadUntil(s[1..], DQUOTE, true)
          case None => Fail(NoClosing(DQUOTE))
          case Some(r) => Yield([[c] + r.0], r.1)
      else Yield(if token == [] then [[c]] else [token, [c]], s[1..])
  }

  function NextTurn(s: seq<byte>): (t: Turn)
    ensures t.Yield? ==> |t.rest| < |s|
  {
    Accumulate(SkipWhitespace(s), [])
  }

  function SeenAll(tokens: seq<Token>, literal: Option<seq<byte>>): seq<Tok> {
    seq(|tokens|, i requires 0 <= i < |tokens| => Seen(tokens[i], literal))
  }

  /** All tokens of one record's text. */
  function LexText(s: seq<byte>, literal: Option<seq<byte>>): Lexed
    decreases |s|
  {
    match NextTurn(s)
    case End => Lexed([], None)
    case Fail(e) => Lexed([], Some(e))
    case Yield(tokens, rest) => Append(SeenAll(tokens, literal), LexText(rest, literal))
  }

  function LiteralOf(r: Record): Option<seq<byte>> {
    match r
    case Line(_) => None
    case WithLiteral(_, literal) => Some(literal)
  }

  function LexRecord(r: Record): Lexed {
    if r.WithLiteral? && (r.text == [] || r.text[|r.text| - 1] != CLOSE_BRACE) then Lexed([], Some(RecordWithoutMarker))
    else LexText(r.text, LiteralOf(r))
  }

  function Chain(a: Lexed, b: Lexed): Lexed {
    if a.error.Some? then a else Append(a.toks, b)
  }

  /** All tokens of a response, record after record. */
  function LexRecords(rs: seq<Record>): Lexed {
    if rs == [] then Lexed([], None) else Chain(LexRecord(rs[0]), LexRecords(rs[1..]))
  }
}
