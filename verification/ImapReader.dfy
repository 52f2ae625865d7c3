/** The parser as it runs: mutually recursive methods over one shared token source. */
module ImapReader {
  import opened Common
  import opened Decimals
  import opened ImapLexing
  import opened ImapLexer
  import opened ImapParsing
  import opened ImapMessageList

  /** `r` and the stream left behind are what a function of the stream before says. */
  ghost predicate Agrees<T>(spec: Result<(T, Lexed), ParseError>, r: Result<T, ParseError>, rest: Lexed) {
    match spec
    case Err(e) => r == Err(e)
    case Ok(s) => r == Ok(s.0) && rest == s.1
  }

  /** `out` in front of the values that are still to be read. */
  ghost function With(out: seq<Value>, spec: Result<(seq<Value>, Lexed), ParseError>):
      Result<(seq<Value>, Lexed), ParseError>
  {
    match spec
    case Err(e) => Err(e)
    case Ok(s) => Ok((out + s.0, s.1))
  }

  ghost function WithAll(out: seq<Value>, spec: Result<seq<Value>, ParseError>): Result<seq<Value>, ParseError> {
    match spec
    case Err(e) => Err(e)
    case Ok(s) => Ok(out + s)
  }

  lemma WithNone(l: Lexed)
    ensures With([], ParseTuple(l)) == ParseTuple(l) && WithAll([], ParseAll(l)) == ParseAll(l)
  {
    if ParseTuple(l).Ok? { assert [] + ParseTuple(l).value.0 == ParseTuple(l).value.0; }
    if ParseAll(l).Ok? { assert [] + ParseAll(l).value == ParseAll(l).value; }
  }

  /** What one turn of the loop of parse_tuple does to the values still to come. */
  lemma TupleStep(out: seq<Value>, l: Lexed)
    requires l.toks != []
    ensures l.toks[0].token == CLOSE ==> With(out, ParseTuple(l)) == Ok((out, Tail(l)))
    ensures l.toks[0].token != CLOSE ==>
              match Atom(l.toks[0], Tail(l))
              case Err(e) => With(out, ParseTuple(l)) == Err(e)
              case Ok(a) => With(out, ParseTuple(l)) == With(out + [a.0], ParseTuple(a.1))
  {
    assert out + [] == out;
    if l.toks[0].token != CLOSE {
      var r := Atom(l.toks[0], Tail(l));
      if r.Ok? {
        var t := ParseTuple(r.value.1);
        if t.Ok? { assert out + ([r.value.0] + t.value.0) == out + [r.value.0] + t.value.0; }
      }
    }
  }

  lemma AllStep(out: seq<Value>, l: Lexed)
    requires l.toks != []
    ensures match Atom(l.toks[0], Tail(l))
            case Err(e) => WithAll(out, ParseAll(l)) == Err(e)
            case Ok(a) => WithAll(out, ParseAll(l)) == WithAll(out + [a.0], ParseAll(a.1))
  {
    var r := Atom(l.toks[0], Tail(l));
    if r.Ok? {
      var t := ParseAll(r.value.1);
      if t.Ok? { assert out + ([r.value.0] + t.value) == out + [r.value.0] + t.value; }
    }
  }

  /** The cases of atom that read no further token; the literal is asked for at a marker only. */
  method ReadSimple(src: Lexer, token: Token) returns (r: Result<Value, ParseError>)
    requires token != OPEN
    ensures r == SimpleAtom(Seen(token, src.literal))
  {
    if token == NIL {
      return Ok(Nil);
    } else if token != [] && token[0] == OPEN_BRACE {
      var length := PyInt(Inner(token));
      if length.None? { return Err(BadLiteralLength); }
      var literal := src.CurrentLiteral();
      if literal.None? { return Err(NoLiteral); }
      if |literal.value| != length.value { return Err(LiteralSize); }
      return Ok(Bytes(literal.value));
    } else if |token| >= 2 && token[0] == DQUOTE && token[|token| - 1] == DQUOTE {
      return Ok(Bytes(Inner(token)));
    } else if AllDigits(token) {
      return Ok(Number(DecimalValue(token)));
    } else {
      return Ok(Bytes(token));
    }
  }

  method ReadAtom(src: Lexer, token: Token) returns (r: Result<Value, ParseError>)
    requires src.Valid()
    modifies src, src.stream
    ensures src.Valid() && (src.stream == old(src.stream) || fresh(src.stream))
    ensures Agrees(Atom(old(Seen(token, src.literal)), old(src.Rest())), r, src.Rest())
    decreases |src.Rest().toks|, 1
  {
    if token == OPEN {
      var items := ReadTuple(src);
      if items.Err? { return Err(items.error); }
      return Ok(Tuple(items.value));
    }
    r := ReadSimple(src, token);
  }

  method ReadTuple(src: Lexer) returns (r: Result<seq<Value>, ParseError>)
    requires src.Valid()
    modifies src, src.stream
    ensures src.Valid() && (src.stream == old(src.stream) || fresh(src.stream))
    ensures Agrees(ParseTuple(old(src.Rest())), r, src.Rest())
    decreases |src.Rest().toks|, 0
  {
    hide Atom, ParseTuple;
    ghost var all := src.Rest();
    var out: seq<Value> := [];
    WithNone(all);
    while true
      invariant src.Valid() && (src.stream == old(src.stream) || fresh(src.stream))
      invariant |src.Rest().toks| <= |all.toks|
      invariant ParseTuple(all) == With(out, ParseTuple(src.Rest()))
      decreases |src.Rest().toks|
    {
      ghost var l := src.Rest();
      var token := src.NextToken();
      if token.Err? {
        NothingLeft(l);
        return Err(LexFailure(token.error));
      }
      if token.value.None? {
        NothingLeft(l);
        return Err(TupleIncomplete);
      }
      TupleStep(out, l);
      if token.value.value == CLOSE {
        return Ok(out);
      }
      var item := ReadAtom(src, token.value.value);
      if item.Err? { return Err(item.error); }
      out := out + [item.value];
    }
  }

  lemma NothingLeft(l: Lexed)
    requires l.toks == []
    ensures ParseTuple(l) == Err(if l.error.Some? then LexFailure(l.error.value) else TupleIncomplete)
    ensures ParseAll(l) == if l.error.Some? then Err(LexFailure(l.error.value)) else Ok([])
  {
  }

  /** gen_parsed_response, run to its end. */
  method ReadAll(src: Lexer) returns (r: Result<seq<Value>, ParseError>)
    requires src.Valid()
    modifies src, src.stream
    ensures r == ParseAll(old(src.Rest()))
  {
    hide Atom, ParseAll;
    ghost var all := src.Rest();
    var out: seq<Value> := [];
    WithNone(all);
    while true
      invariant src.Valid() && (src.stream == old(src.stream) || fresh(src.stream))
      invariant ParseAll(all) == WithAll(out, ParseAll(src.Rest()))
      decreases |src.Rest().toks|
    {
      ghost var l := src.Rest();
      var token := src.NextToken();
      if token.Err? {
        NothingLeft(l);
        return Err(LexFailure(token.error));
      }
      if token.value.None? {
        NothingLeft(l);
        assert out + [] == out;
        return Ok(out);
      }
      AllStep(out, l);
      var item := ReadAtom(src, token.value.value);
      if item.Err? { return Err(item.error); }
      out := out + [item.value];
    }
  }

  method ReadResponse(records: seq<Record>) returns (r: Result<seq<Value>, ParseError>)
    ensures r == ParseResponse(records)
  {
    if records == [] {
      assert LexRecords([]) == Lexed([], None);
      return Ok([]);
    }
    var src := new Lexer(records);
    r := ReadAll(src);
  }

  /** parse_message_list: the regular expression, then the loop over what parse_response yields for the rest. */
  method ReadMessageList(data: seq<seq<byte>>) returns (r: Result<SearchIds, ListError>)
    ensures r == ParseMessageList(data)
  {
    if |data| != 1 { return Err(UnexpectedData); }
    if data[0] == [] { return Ok(NO_IDS); }
    if !IsAscii(data[0]) { return Err(NotAscii); }
    if !StartsWithDigit(data[0]) { return Err(UnexpectedFormat); }
    var (numbers, extra) := MatchIds(data[0]);
    var ids := SearchIds(numbers, None);
    if extra == [] { return Ok(ids); }
    var items := ReadResponse([Line(extra)]);
    if items.Err? { return Err(ParseFailed(items.error)); }
    assert items.value[0..] == items.value;
    for i := 0 to |items.value|
      invariant AddItems(ids, items.value[i..]) == AddItems(SearchIds(numbers, None), items.value)
    {
      var item := items.value[i];
      assert items.value[i..][0] == item && items.value[i..][1..] == items.value[i + 1..];
      if item.Tuple? && |item.items| == 2 {
        if !item.items[0].Bytes? { return Err(NotABytesName); }
        if Lower(item.items[0].b) == MODSEQ { ids := ids.(modseq := Some(item.items[1])); }
      } else if item.Number? {
        ids := ids.(ids := ids.ids + [item.n]);
      }
    }
    return Ok(ids);
  }
}
