/** The lexer as the objects it is made of: iterators that are consumed one byte and one token at a time. */
module ImapLexer {
  import opened Common
  import opened ImapLexing

  function Reversed(s: seq<byte>): (r: seq<byte>)
    ensures |r| == |s|
  {
    if s == [] then [] else Reversed(s[1..]) + [s[0]]
  }

  lemma {:induction false} ReversedSnoc(s: seq<byte>, c: byte)
    ensures Reversed(s + [c]) == [c] + Reversed(s)
  {
    if s == [] {
      assert [] + [c] == [c] && [c][1..] == [];
    } else {
      assert (s + [c])[1..] == s[1..] + [c];
      ReversedSnoc(s[1..], c);
    }
  }

  /** An iterator over bytes with a stack of bytes that were pushed back. */
  class PushableIterator {
    const text: seq<byte>
    var pos: nat
    var pushed: seq<byte>
    /** The largest number of bytes ever held in `pushed`. */
    ghost var deepest: nat

    ghost predicate Valid()
      reads this
    {
      pos <= |text| && |pushed| <= deepest
    }

    /** The bytes that the iterator will still produce. */
    ghost function Remaining(): seq<byte>
      requires Valid()
      reads this
    {
      Reversed(pushed) + text[pos..]
    }

    constructor (source: seq<byte>)
      ensures Valid() && Remaining() == source && pushed == [] && deepest == 0
    {
      text, pos, pushed, deepest := source, 0, [], 0;
    }

    /** `__next__`; None stands for StopIteration. */
    method Next() returns (c: Option<byte>)
      requires Valid()
      modifies this`pos, this`pushed
      ensures Valid()
      ensures |pushed| == if old(|pushed|) == 0 then 0 else old(|pushed|) - 1
      ensures if old(Remaining()) == [] then c.None? && Remaining() == []
              else c == Some(old(Remaining())[0]) && Remaining() == old(Remaining())[1..]
    {
      if pushed != [] {
        c := Some(pushed[|pushed| - 1]);
        ReversedSnoc(pushed[..|pushed| - 1], pushed[|pushed| - 1]);
        assert pushed == pushed[..|pushed| - 1] + [pushed[|pushed| - 1]];
        pushed := pushed[..|pushed| - 1];
      } else if pos == |text| {
        c := None;
      } else {
        c := Some(text[pos]);
        pos := pos + 1;
      }
    }

    method Push(item: byte)
      requires Valid()
      modifies this`pushed, this`deepest
      ensures Valid() && pushed == old(pushed) + [item]
      ensures deepest == Max(old(deepest), |pushed|)
      ensures Remaining() == [item] + old(Remaining())
    {
      ReversedSnoc(pushed, item);
      pushed := pushed + [item];
      deepest := Max(deepest, |pushed|);
    }
  }

  /** `r` is what one read_until makes of a text, `rest` what it leaves. */
  ghost predicate UntilIs(spec: Option<(seq<byte>, seq<byte>)>, endChar: byte,
                          r: Result<seq<byte>, LexError>, rest: seq<byte>)
  {
    match spec
    case None => r == Err(NoClosing(endChar))
    case Some(s) => r == Ok(s.0) && rest == s.1
  }

  ghost function After(token: seq<byte>, spec: Option<(seq<byte>, seq<byte>)>): Option<(seq<byte>, seq<byte>)> {
    match spec
    case None => None
    case Some(s) => Some((token + s.0, s.1))
  }

  lemma AfterTwice(a: seq<byte>, b: seq<byte>, spec: Option<(seq<byte>, seq<byte>)>)
    ensures After(a, After(b, spec)) == After(a + b, spec)
  {
    if spec.Some? { assert a + (b + spec.value.0) == a + b + spec.value.0; }
  }

  /** The bytes one step of read_until appends at the front of `s`, and how many it consumes. */
  lemma UntilStep(s: seq<byte>, endChar: byte, escape: bool)
    ensures s != [] && !(escape && s[0] == BACKSLASH) && s[0] != endChar ==>
              ReadUntil(s, endChar, escape) == After([s[0]], ReadUntil(s[1..], endChar, escape))
    ensures |s| > 1 && escape && s[0] == BACKSLASH ==>
              ReadUntil(s, endChar, escape)
              == After(if s[1] != BACKSLASH && s[1] != endChar then [BACKSLASH, s[1]] else [s[1]],
                       ReadUntil(s[2..], endChar, escape))
  {
  }

  /** read_until: the loop over the stream does what ReadUntil says. */
  method ReadUntilChar(stream: PushableIterator, endChar: byte, escape: bool) returns (r: Result<seq<byte>, LexError>)
    requires stream.Valid() && stream.pushed == []
    modifies stream`pos, stream`pushed
    ensures stream.Valid() && stream.pushed == []
    ensures UntilIs(ReadUntil(old(stream.Remaining()), endChar, escape), endChar, r, stream.Remaining())
  {
    var token: seq<byte> := [];
    ghost var s := stream.Remaining();
    ghost var spec := ReadUntil(s, endChar, escape);
    assert spec == After([], ReadUntil(s, endChar, escape)) by {
      if spec.Some? { assert [] + spec.value.0 == spec.value.0; }
    }
    while true
      invariant stream.Valid() && stream.pushed == [] && stream.Remaining() == s
      invariant spec == After(token, ReadUntil(s, endChar, escape))
      decreases |s|
    {
      UntilStep(s, endChar, escape);
      var next := stream.Next();
      if next.None? { return Err(NoClosing(endChar)); }
      var nextchar := next.value;
      if escape && nextchar == BACKSLASH {
        var escaped := stream.Next();
        if escaped.None? { return Err(NoClosing(endChar)); }
        nextchar := escaped.value;
        assert s[1..][1..] == s[2..];
        AfterTwice(token, if nextchar != BACKSLASH && nextchar != endChar then [BACKSLASH, nextchar] else [nextchar],
                   ReadUntil(s[2..], endChar, escape));
        s := s[2..];
        if nextchar != BACKSLASH && nextchar != endChar {
          assert token + [BACKSLASH] + [nextchar] == token + [BACKSLASH, nextchar];
          token := token + [BACKSLASH];
        }
      } else if nextchar == endChar {
        return Ok(token + [endChar]);
      } else {
        AfterTwice(token, [nextchar], ReadUntil(s[1..], endChar, escape));
        s := s[1..];
      }
      token := token + [nextchar];
    }
  }

  /** The first inner loop of read_token_stream: at most one byte is pushed back. */
  method SkipBlanks(stream: PushableIterator)
    requires stream.Valid() && stream.pushed == [] && stream.deepest <= 1
    modifies stream
    ensures stream.Valid() && |stream.pushed| <= 1 && stream.deepest <= 1
    ensures stream.Remaining() == SkipWhitespace(old(stream.Remaining()))
  {
    ghost var s := stream.Remaining();
    while true
      invariant stream.Valid() && stream.pushed == [] && stream.deepest <= 1 && stream.Remaining() == s
      invariant SkipWhitespace(s) == SkipWhitespace(old(stream.Remaining()))
      decreases |s|
    {
      var next := stream.Next();
      if next.None? { return; }
      if !IsWhitespace(next.value) {
        stream.Push(next.value);
        assert [s[0]] + s[1..] == s;
        return;
      }
      s := s[1..];
    }
  }

  ghost predicate TurnIs(t: Turn, r: Result<Option<seq<Token>>, LexError>, rest: seq<byte>) {
    match t
    case End => r == Ok(None) && rest == []
    case Fail(e) => r == Err(e)
    case Yield(tokens, rest') => r == Ok(Some(tokens)) && rest == rest'
  }

  /** One turn of the outer loop of read_token_stream: the tokens it yields, or None at the end. */
  method ReadTurn(stream: PushableIterator) returns (r: Result<Option<seq<Token>>, LexError>)
    requires stream.Valid() && stream.pushed == [] && stream.deepest <= 1
    modifies stream
    ensures stream.Valid() && stream.pushed == [] && stream.deepest <= 1
    ensures TurnIs(NextTurn(old(stream.Remaining())), r, stream.Remaining())
  {
    ghost var turn := NextTurn(stream.Remaining());
    SkipBlanks(stream);
    var token: Token := [];
    ghost var s := stream.Remaining();
    while true
      invariant stream.Valid() && |stream.pushed| <= 1 && stream.deepest <= 1 && stream.Remaining() == s
      invariant turn == Accumulate(s, token)
      decreases |s|
    {
      var next := stream.Next();
      if next.None? {
        return Ok(if token == [] then None else Some([token]));
      }
      var nextchar := next.value;
      s := s[1..];
      if IsWordChar(nextchar) {
        token := token + [nextchar];
      } else if nextchar == OPEN_SQUARE {
        var section := ReadUntilChar(stream, CLOSE_SQUARE, false);
        if section.Err? { return Err(section.error); }
        token := token + [nextchar] + section.value;
        s := stream.Remaining();
      } else if IsWhitespace(nextchar) {
        return Ok(Some([token]));
      } else if nextchar == DQUOTE {
        if token != [] { return Err(QuoteInsideWord); }
        var quoted := ReadUntilChar(stream, nextchar, true);
        if quoted.Err? { return Err(quoted.error); }
        return Ok(Some([[nextchar] + quoted.value]));
      } else {
        return Ok(Some(if token == [] then [[nextchar]] else [token, [nextchar]]));
      }
    }
  }

  // ----- Lexer and TokenSource

  /** The tokens of a record that is being read, then those of the later records. */
  ghost function Stream(pending: seq<Token>, literal: Option<seq<byte>>, text: seq<byte>, later: Lexed): Lexed {
    Chain(Append(SeenAll(pending, literal), LexText(text, literal)), later)
  }

  /** The tokens of all records. `pending` holds what read_token_stream yields when it is resumed. */
  class Lexer {
    const records: seq<Record>
    var next: nat
    var literal: Option<seq<byte>>
    var stream: PushableIterator
    var pending: seq<Token>

    ghost predicate Valid()
      reads this, stream
    {
      && next <= |records|
      && stream.Valid() && stream.pushed == [] && stream.deepest <= 1
    }

    /** The tokens still to come, each marker with the literal of its own record. */
    ghost function Rest(): Lexed
      requires Valid()
      reads this, stream
    {
      Stream(pending, literal, stream.Remaining(), LexRecords(records[next..]))
    }

    constructor (text: seq<Record>)
      ensures Valid() && fresh(stream) && Rest() == LexRecords(text)
    {
      records, next, literal, pending := text, 0, None, [];
      stream := new PushableIterator([]);
      new;
      assert text[0..] == text;
      assert NextTurn([]) == End;
      EmptyFront(LexRecords(text));
    }

    /** `__iter__`, one token at a time; None stands for the end of the iteration. */
    method NextToken() returns (r: Result<Option<Token>, LexError>)
      requires Valid()
      modifies this, stream
      ensures Valid() && (stream == old(stream) || fresh(stream))
      ensures r.Err? ==> old(Rest()).toks == [] && old(Rest()).error == Some(r.error)
      ensures r.Ok? && r.value.None? ==> old(Rest()) == Lexed([], None)
      ensures r.Ok? && r.value.Some? ==>
                && old(Rest()).toks != []
                && old(Rest()).toks[0] == Seen(r.value.value, literal)
                && Rest() == Lexed(old(Rest()).toks[1..], old(Rest()).error)
    {
      hide Stream, LexRecords, NextTurn;
      while pending == []
        invariant Valid() && (stream == old(stream) || fresh(stream))
        invariant Rest() == old(Rest())
        decreases |records| - next, |stream.Remaining()|
      {
        ghost var before := stream.Remaining();
        ghost var later := LexRecords(records[next..]);
        var turn := ReadTurn(stream);
        if turn.Err? {
          FailedTurn(before, literal, later);
          return Err(turn.error);
        }
        if turn.value.Some? {
          pending := turn.value.value;
          YieldedTurn(before, literal, later);
        } else {
          EndOfText(before, literal, later);
          if next == |records| {
            NoMoreRecords(records[next..]);
            return Ok(None);
          }
          var found := OpenNext(later);
          if !found { return Err(RecordWithoutMarker); }
        }
      }
      FirstPending(pending, literal, stream.Remaining(), LexRecords(records[next..]));
      var token := pending[0];
      pending := pending[1..];
      return Ok(Some(token));
    }

    /** The next source: LiteralHandlingIter asserts that a record with a literal ends in a marker. */
    method OpenNext(ghost later: Lexed) returns (found: bool)
      requires Valid() && next < |records| && pending == [] && later == LexRecords(records[next..])
      modifies this
      ensures Valid() && pending == [] && (stream == old(stream) || fresh(stream))
      ensures !found ==> later == Lexed([], Some(RecordWithoutMarker))
      ensures found ==> fresh(stream) && next == old(next) + 1 && Rest() == later
    {
      hide Stream, LexRecords;
      var record := records[next];
      NextRecord(records[next..]);
      assert records[next..][1..] == records[next + 1..];
      if record.WithLiteral? && (record.text == [] || record.text[|record.text| - 1] != CLOSE_BRACE) {
        return false;
      }
      next := next + 1;
      literal := LiteralOf(record);
      stream := new PushableIterator(record.text);
      return true;
    }

    /** TokenSource.current_literal. */
    method CurrentLiteral() returns (l: Option<seq<byte>>)
      ensures l == literal
    {
      l := literal;
    }
  }

  lemma EmptyFront(later: Lexed)
    ensures Stream([], None, [], later) == later
  {
    assert NextTurn([]) == End;
    assert [] + later.toks == later.toks;
  }

  lemma FailedTurn(text: seq<byte>, literal: Option<seq<byte>>, later: Lexed)
    requires NextTurn(text).Fail?
    ensures Stream([], literal, text, later) == Lexed([], Some(NextTurn(text).error))
  {
  }

  lemma YieldedTurn(text: seq<byte>, literal: Option<seq<byte>>, later: Lexed)
    requires NextTurn(text).Yield?
    ensures NextTurn(text).tokens != []
    ensures Stream([], literal, text, later) == Stream(NextTurn(text).tokens, literal, NextTurn(text).rest, later)
  {
    YieldNotEmpty(SkipWhitespace(text), []);
    var t := NextTurn(text);
    var toks := SeenAll(t.tokens, literal) + LexText(t.rest, literal).toks;
    assert SeenAll([], literal) + toks == toks;
  }

  lemma {:induction false} YieldNotEmpty(s: seq<byte>, token: Token)
    ensures Accumulate(s, token).Yield? ==> Accumulate(s, token).tokens != []
    decreases |s|
  {
    if s != [] {
      if IsWordChar(s[0]) {
        YieldNotEmpty(s[1..], token + [s[0]]);
      } else if s[0] == OPEN_SQUARE {
        var r := ReadUntil(s[1..], CLOSE_SQUARE, false);
        if r.Some? { YieldNotEmpty(r.value.1, token + [s[0]] + r.value.0); }
      }
    }
  }

  lemma EndOfText(text: seq<byte>, literal: Option<seq<byte>>, later: Lexed)
    requires NextTurn(text).End?
    ensures Stream([], literal, text, later) == later
  {
    assert [] + later.toks == later.toks;
  }

  lemma NoMoreRecords(rs: seq<Record>)
    requires rs == []
    ensures LexRecords(rs) == Lexed([], None)
  {
  }

  lemma NextRecord(rs: seq<Record>)
    requires rs != []
    ensures LexRecords(rs)
         == if rs[0].WithLiteral? && (rs[0].text == [] || rs[0].text[|rs[0].text| - 1] != CLOSE_BRACE)
            then Lexed([], Some(RecordWithoutMarker))
            else Stream([], LiteralOf(rs[0]), rs[0].text, LexRecords(rs[1..]))
  {
    var l := LexText(rs[0].text, LiteralOf(rs[0]));
    assert SeenAll([], LiteralOf(rs[0])) + l.toks == l.toks;
  }

  lemma FirstPending(pending: seq<Token>, literal: Option<seq<byte>>, text: seq<byte>, later: Lexed)
    requires pending != []
    ensures Stream(pending, literal, text, later).toks != []
    ensures Stream(pending, literal, text, later).toks[0] == Seen(pending[0], literal)
    ensures Stream(pending[1..], literal, text, later)
         == Lexed(Stream(pending, literal, text, later).toks[1..], Stream(pending, literal, text, later).error)
  {
    var all, l := SeenAll(pending, literal), LexText(text, literal);
    assert SeenAll(pending[1..], literal) == all[1..];
    assert (all + l.toks)[1..] == all[1..] + l.toks;
    if l.error.None? {
      assert (all + l.toks + later.toks)[1..] == all[1..] + l.toks + later.toks;
    }
  }
}
