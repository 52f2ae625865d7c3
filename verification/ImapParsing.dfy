/** Parsing token streams into nested values: atom, parse_tuple and gen_parsed_response. */
module ImapParsing {
  import opened Common
  import opened Decimals
  import opened ImapLexing

  datatype Value = Nil | Number(n: nat) | Bytes(b: seq<byte>) | Tuple(items: seq<Value>)

  datatype ParseError =
    | LexFailure(error: LexError)
    | BadLiteralLength
    | NoLiteral
    | LiteralSize
    | TupleIncomplete

  /** `int()` of a byte string without white space: an optional sign and digits. */
  function PyInt(s: seq<byte>): Option<int> {
    if AllDigits(s) then Some(DecimalValue(s))
    else if |s| > 1 && (s[0] == 43 || s[0] == 45) && AllDigits(s[1..]) then
      Some(if s[0] == 45 then -(DecimalValue(s[1..]) as int) else DecimalValue(s[1..]))
    else None
  }

  const OPEN: Token := [OPEN_PAREN]
  const CLOSE: Token := [CLOSE_PAREN]
  const NIL: Token := [78, 73, 76]

  /** The cases of atom that read no further token. */
  function SimpleAtom(tok: Tok): Result<Value, ParseError> {
    var token := tok.token;
    if token == NIL then Ok(Nil)
    else if IsMarker(token) then
      match PyInt(Inner(token))
      case None => Err(BadLiteralLength)
      case Some(n) =>
        if tok.literal.None? then Err(NoLiteral)
        else if |tok.literal.value| != n then Err(LiteralSize)
        else Ok(Bytes(tok.literal.value))
    else if |token| >= 2 && token[0] == DQUOTE && token[|token| - 1] == DQUOTE then Ok(Bytes(Inner(token)))
    else if AllDigits(token) then Ok(Number(DecimalValue(token)))
    else Ok(Bytes(token))
  }

  function Tail(l: Lexed): Lexed
    requires l.toks != []
  {
    Lexed(l.toks[1..], l.error)
  }

  /** atom: the value that starts with token `tok`, and the stream after it. */
  function Atom(tok: Tok, rest: Lexed): (r: Result<(Value, Lexed), ParseError>)
    ensures r.Ok? ==> |r.value.1.toks| <= |rest.toks|
    decreases |rest.toks|, 1
  {
    if tok.token == OPEN then
      match ParseTuple(rest)
      case Err(e) => Err(e)
      case Ok(t) => Ok((Tuple(t.0), t.1))
    else
      match SimpleAtom(tok)
      case Err(e) => Err(e)
      case Ok(v) => Ok((v, rest))
  }

  /** parse_tuple: the values up to the closing parenthesis, and the stream after it. */
  function ParseTuple(l: Lexed): (r: Result<(seq<Value>, Lexed), ParseError>)
    ensures r.Ok? ==> |r.value.1.toks| <= |l.toks|
    decreases |l.toks|, 0
  {
    if l.toks == [] then Err(if l.error.Some? then LexFailure(l.error.value) else TupleIncomplete)
    else if l.toks[0].token == CLOSE then Ok(([], Tail(l)))
    else
      match Atom(l.toks[0], Tail(l))
      case Err(e) => Err(e)
      case Ok(a) =>
        match ParseTuple(a.1)
        case Err(e) => Err(e)
        case Ok(t) => Ok(([a.0] + t.0, t.1))
  }

  /** gen_parsed_response, run to its end. */
  function ParseAll(l: Lexed): Result<seq<Value>, ParseError>
    decreases |l.toks|
  {
    if l.toks == [] then (if l.error.Some? then Err(LexFailure(l.error.value)) else Ok([]))
    else
      match Atom(l.toks[0], Tail(l))
      case Err(e) => Err(e)
      case Ok(a) =>
        match ParseAll(a.1)
        case Err(e) => Err(e)
        case Ok(vs) => Ok([a.0] + vs)
  }

  /** parse_response. */
  function ParseResponse(rs: seq<Record>): Result<seq<Value>, ParseError> {
    ParseAll(LexRecords(rs))
  }
}
