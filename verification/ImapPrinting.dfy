/** Printing values as IMAP records, and the round trip through lexer and parser. */
module ImapPrinting {
  import opened Common
  import opened Decimals
  import opened ImapLexing
  import opened ImapParsing
  import opened ImapWords

  /** A value with the form it is printed in: byte strings are quoted, sent as a literal, or plain words. */
  datatype Printed =
    | PNil
    | PNumber(n: nat)
    | PQuoted(b: seq<byte>)
    | PLiteral(b: seq<byte>)
    | PWord(w: seq<byte>)
    | PTuple(items: seq<Printed>)

  function ValueOf(p: Printed): Value {
    match p
    case PNil => Nil
    case PNumber(n) => Number(n)
    case PQuoted(b) => Bytes(b)
    case PLiteral(b) => Bytes(b)
    case PWord(w) => Bytes(w)
    case PTuple(items) => Tuple(ValuesOf(items))
  }

  function ValuesOf(ps: seq<Printed>): (vs: seq<Value>)
    ensures |vs| == |ps|
  {
    if ps == [] then [] else [ValueOf(ps[0])] + ValuesOf(ps[1..])
  }

  // ----- _quote

  /** `s.replace(c, with)` for a single byte `c`. */
  function Replace(s: seq<byte>, c: byte, with: seq<byte>): seq<byte> {
    if s == [] then [] else (if s[0] == c then with else [s[0]]) + Replace(s[1..], c, with)
  }

  /** _quote: first the backslashes, then the quotes, then the enclosing quotes. */
  function Quote(arg: seq<byte>): seq<byte> {
    [DQUOTE] + Replace(Replace(arg, BACKSLASH, [BACKSLASH, BACKSLASH]), DQUOTE, [BACKSLASH, DQUOTE]) + [DQUOTE]
  }

  function EscapeByte(c: byte): seq<byte> {
    if c == BACKSLASH || c == DQUOTE then [BACKSLASH, c] else [c]
  }

  /** The same in one pass. */
  function Escape(s: seq<byte>): seq<byte> {
    if s == [] then []
    else EscapeByte(s[0]) + Escape(s[1..])
  }

  lemma {:induction false} ReplaceConcat(a: seq<byte>, b: seq<byte>, c: byte, with: seq<byte>)
    ensures Replace(a + b, c, with) == Replace(a, c, with) + Replace(b, c, with)
  {
    if a == [] {
      assert a + b == b;
    } else {
      assert (a + b)[1..] == a[1..] + b;
      ReplaceConcat(a[1..], b, c, with);
    }
  }

  lemma {:induction false} QuoteEscapes(s: seq<byte>)
    ensures Replace(Replace(s, BACKSLASH, [BACKSLASH, BACKSLASH]), DQUOTE, [BACKSLASH, DQUOTE]) == Escape(s)
  {
    if s != [] {
      var head := if s[0] == BACKSLASH then [BACKSLASH, BACKSLASH] else [s[0]];
      var tail := Replace(s[1..], BACKSLASH, [BACKSLASH, BACKSLASH]);
      ReplaceConcat(head, tail, DQUOTE, [BACKSLASH, DQUOTE]);
      QuoteEscapes(s[1..]);
      assert head[1..] == if s[0] == BACKSLASH then [BACKSLASH] else [];
      assert [BACKSLASH][1..] == [];
    }
  }

  /** Reading up to the closing quote undoes the escaping, for arbitrary bytes. */
  lemma {:induction false} ReadEscaped(s: seq<byte>, rest: seq<byte>)
    ensures ReadUntil(Escape(s) + [DQUOTE] + rest, DQUOTE, true) == Some((s + [DQUOTE], rest))
  {
    hide *;
    if s == [] {
      ReadQuote(rest);
      EscapeNothing();
      assert Escape(s) + [DQUOTE] + rest == [DQUOTE] + rest;
      assert s + [DQUOTE] == [DQUOTE];
    } else {
      ReadEscaped(s[1..], rest);
      EscapeHead(s, rest);
      ReadOneEscaped(s[0], Escape(s[1..]) + [DQUOTE] + rest);
      PutBack(s, [DQUOTE]);
    }
  }

  lemma EscapeNothing()
    ensures Escape([]) == []
  {
  }

  lemma ReadQuote(rest: seq<byte>)
    ensures ReadUntil([DQUOTE] + rest, DQUOTE, true) == Some(([DQUOTE], rest))
  {
    assert ([DQUOTE] + rest)[1..] == rest;
  }

  lemma PutBack(s: seq<byte>, t: seq<byte>)
    requires s != []
    ensures [s[0]] + (s[1..] + t) == s + t
  {
  }

  lemma EscapeHead(s: seq<byte>, rest: seq<byte>)
    requires s != []
    ensures Escape(s) + [DQUOTE] + rest == EscapeByte(s[0]) + (Escape(s[1..]) + [DQUOTE] + rest)
  {
    hide EscapeByte;
    assert Escape(s) == EscapeByte(s[0]) + Escape(s[1..]);
  }

  lemma ReadOneEscaped(c: byte, u: seq<byte>)
    requires ReadUntil(u, DQUOTE, true).Some?
    ensures var r := ReadUntil(u, DQUOTE, true).value;
            ReadUntil(EscapeByte(c) + u, DQUOTE, true) == Some(([c] + r.0, r.1))
  {
    if c == BACKSLASH || c == DQUOTE {
      assert ([BACKSLASH, c] + u)[2..] == u;
    } else {
      assert ([c] + u)[1..] == u;
    }
  }

  // ----- Plain words

  /** A word that stands for itself: not NIL, not a number, not a literal marker. */
  ghost predicate PlainWord(w: seq<byte>) {
    w != [] && WordShape(w) && w != NIL && !AllDigits(w) && w[0] != OPEN_BRACE
  }

  ghost predicate WellFormed(p: Printed) {
    match p
    case PWord(w) => PlainWord(w)
    case PTuple(items) => forall i :: 0 <= i < |items| ==> WellFormed(items[i])
    case _ => true
  }

  // ----- Printing

  function Lengthen(t: seq<byte>, r: Record): Record {
    match r
    case Line(text) => Line(t + text)
    case WithLiteral(text, literal) => WithLiteral(t + text, literal)
  }

  function PrependText(t: seq<byte>, rs: seq<Record>): (r: seq<Record>)
    requires rs != []
    ensures r != []
  {
    [Lengthen(t, rs[0])] + rs[1..]
  }

  function Marker(b: seq<byte>): seq<byte> {
    [OPEN_BRACE] + Decimal(|b|) + [CLOSE_BRACE]
  }

  /** Prints `p` in front of the records `rs`; a literal ends its record with a marker. */
  function Print(p: Printed, rs: seq<Record>): (r: seq<Record>)
    requires rs != []
    ensures r != []
    decreases p, 0
  {
    match p
    case PNil => PrependText(NIL, rs)
    case PNumber(n) => PrependText(Decimal(n), rs)
    case PQuoted(b) => PrependText(Quote(b), rs)
    case PLiteral(b) => [WithLiteral(Marker(b), b)] + rs
    case PWord(w) => PrependText(w, rs)
    case PTuple(items) => PrependText(OPEN, PrintAll(items, PrependText(CLOSE, rs)))
  }

  /** Prints values separated by spaces. */
  function PrintAll(ps: seq<Printed>, rs: seq<Record>): (r: seq<Record>)
    requires rs != []
    ensures r != []
    decreases ps
  {
    if ps == [] then rs
    else if |ps| == 1 then Print(ps[0], rs)
    else Print(ps[0], PrependText([SPACE], PrintAll(ps[1..], rs)))
  }

  // ----- What the lexer makes of it

  /** The tokens of a printed value. */
  function TokensOf(p: Printed): seq<Tok>
    decreases p, 0
  {
    match p
    case PNil => [Tok(NIL, None)]
    case PNumber(n) => [Tok(Decimal(n), None)]
    case PQuoted(b) => [Tok([DQUOTE] + b + [DQUOTE], None)]
    case PLiteral(b) => [Tok(Marker(b), Some(b))]
    case PWord(w) => [Tok(w, None)]
    case PTuple(items) => [Tok(OPEN, None)] + AllTokensOf(items) + [Tok(CLOSE, None)]
  }

  function AllTokensOf(ps: seq<Printed>): seq<Tok>
    decreases ps
  {
    if ps == [] then [] else TokensOf(ps[0]) + AllTokensOf(ps[1..])
  }

  // ----- Parsing the tokens

  lemma TokensNotEmpty(p: Printed)
    requires WellFormed(p)
    ensures TokensOf(p) != [] && TokensOf(p)[0].token != CLOSE
  {
    if p.PNumber? { assert IsDigit(Decimal(p.n)[0]); }
  }

  /** Parsing the tokens of a value yields the value and leaves the stream behind it. */
  lemma {:induction false} AtomOfTokens(p: Printed, rest: Lexed)
    requires WellFormed(p)
    ensures TokensOf(p) != []
    ensures Atom(TokensOf(p)[0], Append(TokensOf(p)[1..], rest)) == Ok((ValueOf(p), rest))
    decreases p, 0
  {
    var ts := TokensOf(p);
    assert Append([], rest) == rest;
    match p {
      case PNil => assert ts[1..] == [];
      case PNumber(n) => assert ts[1..] == []; SimpleNumber(n);
      case PQuoted(b) => assert ts[1..] == []; assert Inner([DQUOTE] + b + [DQUOTE]) == b;
      case PLiteral(b) => assert ts[1..] == []; SimpleMarker(b);
      case PWord(w) => assert ts[1..] == []; SimpleWord(w);
      case PTuple(items) =>
        assert ts[1..] == AllTokensOf(items) + [Tok(CLOSE, None)];
        TupleOfTokens(items, rest);
    }
  }

  lemma SimpleNumber(n: nat)
    ensures Decimal(n) != OPEN && SimpleAtom(Tok(Decimal(n), None)) == Ok(Number(n))
  {
    DecimalRoundTrip(n);
    assert IsDigit(Decimal(n)[0]);
  }

  lemma SimpleMarker(b: seq<byte>)
    ensures SimpleAtom(Tok(Marker(b), Some(b))) == Ok(Bytes(b))
  {
    DecimalRoundTrip(|b|);
    assert Inner(Marker(b)) == Decimal(|b|);
  }

  lemma SimpleWord(w: seq<byte>)
    requires PlainWord(w)
    ensures w != OPEN && SimpleAtom(Tok(w, None)) == Ok(Bytes(w))
  {
  }

  lemma {:induction false} TupleOfTokens(ps: seq<Printed>, rest: Lexed)
    requires forall i :: 0 <= i < |ps| ==> WellFormed(ps[i])
    ensures ParseTuple(Append(AllTokensOf(ps) + [Tok(CLOSE, None)], rest)) == Ok((ValuesOf(ps), rest))
    decreases ps
  {
    var l := Append(AllTokensOf(ps) + [Tok(CLOSE, None)], rest);
    if ps == [] {
      assert Tail(l) == rest;
    } else {
      var first := TokensOf(ps[0]);
      TokensNotEmpty(ps[0]);
      var l' := Append(AllTokensOf(ps[1..]) + [Tok(CLOSE, None)], rest);
      assert l.toks == first + l'.toks;
      assert l.toks[0] == first[0] && Tail(l) == Append(first[1..], l');
      AtomOfTokens(ps[0], l');
      TupleOfTokens(ps[1..], rest);
    }
  }

  lemma {:induction false} AllOfTokens(ps: seq<Printed>)
    requires forall i :: 0 <= i < |ps| ==> WellFormed(ps[i])
    ensures ParseAll(Lexed(AllTokensOf(ps), None)) == Ok(ValuesOf(ps))
    decreases ps
  {
    if ps != [] {
      var l := Lexed(AllTokensOf(ps), None);
      var first := TokensOf(ps[0]);
      TokensNotEmpty(ps[0]);
      var l' := Lexed(AllTokensOf(ps[1..]), None);
      assert l.toks[0] == first[0] && Tail(l) == Append(first[1..], l');
      AtomOfTokens(ps[0], l');
      AllOfTokens(ps[1..]);
    }
  }

  // ----- Lexing the records

  lemma LexParen(c: byte, t: seq<byte>, literal: Option<seq<byte>>)
    requires c == OPEN_PAREN || c == CLOSE_PAREN
    ensures LexText([c] + t, literal) == Append([Tok([c], None)], LexText(t, literal))
  {
    assert ([c] + t)[1..] == t;
    assert NextTurn([c] + t) == Yield([[c]], t);
    assert SeenAll([[c]], literal) == [Tok([c], None)];
  }

  lemma LexQuoted(b: seq<byte>, t: seq<byte>, literal: Option<seq<byte>>)
    ensures LexText(Quote(b) + t, literal) == Append([Tok([DQUOTE] + b + [DQUOTE], None)], LexText(t, literal))
  {
    QuoteEscapes(b);
    ReadEscaped(b, t);
    var s := Quote(b) + t;
    assert s[0] == DQUOTE && s[1..] == Escape(b) + [DQUOTE] + t;
    assert [DQUOTE] + (b + [DQUOTE]) == [DQUOTE] + b + [DQUOTE];
    assert NextTurn(s) == Yield([[DQUOTE] + b + [DQUOTE]], t);
    assert SeenAll([[DQUOTE] + b + [DQUOTE]], literal) == [Tok([DQUOTE] + b + [DQUOTE], None)];
  }

  /** A record with a literal ends in a marker. */
  ghost predicate EndsInMarker(r: Record) {
    r.WithLiteral? ==> r.text != [] && r.text[|r.text| - 1] == CLOSE_BRACE
  }

  ghost predicate Printable(rs: seq<Record>) {
    rs != [] && EndsInMarker(rs[0])
  }

  lemma LengthenLex(t: seq<byte>, toks: seq<Tok>, r: Record)
    requires EndsInMarker(r) && t != []
    requires LexText(t + r.text, LiteralOf(r)) == Append(toks, LexText(r.text, LiteralOf(r)))
    ensures LexRecord(Lengthen(t, r)) == Append(toks, LexRecord(r)) && EndsInMarker(Lengthen(t, r))
  {
    hide LexText;
  }

  lemma ChainAppend(toks: seq<Tok>, a: Lexed, b: Lexed)
    ensures Chain(Append(toks, a), b) == Append(toks, Chain(a, b))
  {
    assert toks + (a.toks + b.toks) == (toks + a.toks) + b.toks;
  }

  lemma PrependLex(t: seq<byte>, toks: seq<Tok>, rs: seq<Record>)
    requires Printable(rs) && t != []
    requires LexText(t + rs[0].text, LiteralOf(rs[0])) == Append(toks, LexText(rs[0].text, LiteralOf(rs[0])))
    ensures LexRecords(PrependText(t, rs)) == Append(toks, LexRecords(rs))
    ensures Printable(PrependText(t, rs)) && PrependText(t, rs)[0].text == t + rs[0].text
  {
    hide LexText, LexRecord, Append, Chain;
    assert PrependText(t, rs) == [Lengthen(t, rs[0])] + rs[1..];
    LengthenLex(t, toks, rs[0]);
    ChainAppend(toks, LexRecord(rs[0]), LexRecords(rs[1..]));
  }

  lemma AppendTwice(a: seq<Tok>, b: seq<Tok>, l: Lexed)
    ensures Append(a, Append(b, l)) == Append(a + b, l)
  {
    assert a + (b + l.toks) == (a + b) + l.toks;
  }

  lemma AppendNone(l: Lexed)
    ensures Append([], l) == l
  {
    assert [] + l.toks == l.toks;
  }

  lemma DecimalIsWord(n: nat)
    ensures WordShape(Decimal(n)) && !IsMarker(Decimal(n))
  {
    DigitsAreWord(Decimal(n));
    assert IsDigit(Decimal(n)[0]);
  }

  lemma {:induction false} WordConcat(a: seq<byte>, b: seq<byte>)
    requires (forall i :: 0 <= i < |a| ==> IsWordChar(a[i])) && WordShape(b)
    ensures WordShape(a + b)
  {
    if a == [] {
      assert a + b == b;
    } else {
      assert (a + b)[1..] == a[1..] + b;
      WordConcat(a[1..], b);
    }
  }

  lemma MarkerIsWord(b: seq<byte>)
    ensures WordShape(Marker(b)) && IsMarker(Marker(b)) && Marker(b)[|Marker(b)| - 1] == CLOSE_BRACE
  {
    var d := Decimal(|b|);
    forall i | 0 <= i < |[OPEN_BRACE] + d| ensures IsWordChar(([OPEN_BRACE] + d)[i]) {
      assert i > 0 ==> IsDigit(d[i - 1]);
    }
    assert [CLOSE_BRACE][1..] == [];
    WordConcat([OPEN_BRACE] + d, [CLOSE_BRACE]);
  }

  lemma LexLiteral(b: seq<byte>, rs: seq<Record>)
    ensures LexRecords([WithLiteral(Marker(b), b)] + rs) == Append([Tok(Marker(b), Some(b))], LexRecords(rs))
  {
    MarkerIsWord(b);
    LexWord(Marker(b), [], Some(b));
    assert Marker(b) + [] == Marker(b);
    assert NextTurn([]) == End;
    assert ([WithLiteral(Marker(b), b)] + rs)[1..] == rs;
  }

  /** Lexing a printed value yields its tokens, each literal paired with its own marker. */
  lemma {:induction false} LexPrinted(p: Printed, rs: seq<Record>)
    requires WellFormed(p) && Printable(rs) && Delimited(rs[0].text)
    ensures Printable(Print(p, rs))
    ensures LexRecords(Print(p, rs)) == Append(TokensOf(p), LexRecords(rs))
    decreases p, 0
  {
    var text, literal := rs[0].text, LiteralOf(rs[0]);
    match p {
      case PNil =>
        assert NIL[1..] == [73, 76] && NIL[1..][1..] == [76] && NIL[1..][1..][1..] == [];
        LexWord(NIL, text, literal);
        PrependLex(NIL, [Tok(NIL, None)], rs);
      case PNumber(n) =>
        DecimalIsWord(n);
        LexWord(Decimal(n), text, literal);
        PrependLex(Decimal(n), [Tok(Decimal(n), None)], rs);
      case PQuoted(b) =>
        LexQuoted(b, text, literal);
        PrependLex(Quote(b), [Tok([DQUOTE] + b + [DQUOTE], None)], rs);
      case PLiteral(b) =>
        MarkerIsWord(b);
        LexLiteral(b, rs);
      case PWord(w) =>
        LexWord(w, text, literal);
        PrependLex(w, [Tok(w, None)], rs);
      case PTuple(items) => LexPrintedTuple(items, rs);
    }
  }

  lemma {:induction false} LexPrintedTuple(items: seq<Printed>, rs: seq<Record>)
    requires (forall i :: 0 <= i < |items| ==> WellFormed(items[i])) && Printable(rs)
    ensures var p := PTuple(items);
            Printable(Print(p, rs)) && LexRecords(Print(p, rs)) == Append(TokensOf(p), LexRecords(rs))
    decreases items, 1
  {
    hide LexRecords, LexText, Append;
    LexParen(CLOSE_PAREN, rs[0].text, LiteralOf(rs[0]));
    PrependLex(CLOSE, [Tok(CLOSE, None)], rs);
    var closed := PrependText(CLOSE, rs);
    LexPrintedAll(items, closed);
    var inner := PrintAll(items, closed);
    LexParen(OPEN_PAREN, inner[0].text, LiteralOf(inner[0]));
    PrependLex(OPEN, [Tok(OPEN, None)], inner);
    AppendTwice(AllTokensOf(items), [Tok(CLOSE, None)], LexRecords(rs));
    AppendTwice([Tok(OPEN, None)], AllTokensOf(items) + [Tok(CLOSE, None)], LexRecords(rs));
    assert [Tok(OPEN, None)] + (AllTokensOf(items) + [Tok(CLOSE, None)]) == TokensOf(PTuple(items));
  }

  lemma {:induction false} LexPrintedAll(ps: seq<Printed>, rs: seq<Record>)
    requires (forall i :: 0 <= i < |ps| ==> WellFormed(ps[i])) && Printable(rs) && Delimited(rs[0].text)
    ensures Printable(PrintAll(ps, rs))
    ensures LexRecords(PrintAll(ps, rs)) == Append(AllTokensOf(ps), LexRecords(rs))
    decreases ps, 0
  {
    if ps == [] {
      AppendNone(LexRecords(rs));
    } else if |ps| == 1 {
      LexPrinted(ps[0], rs);
      assert ps[1..] == [];
      assert TokensOf(ps[0]) + [] == TokensOf(ps[0]);
    } else {
      LexPrintedAll(ps[1..], rs);
      var rest := PrintAll(ps[1..], rs);
      LexBlank([SPACE] + rest[0].text, LiteralOf(rest[0]));
      assert ([SPACE] + rest[0].text)[1..] == rest[0].text;
      AppendNone(LexText(rest[0].text, LiteralOf(rest[0])));
      PrependLex([SPACE], [], rest);
      AppendNone(LexRecords(rest));
      LexPrinted(ps[0], PrependText([SPACE], rest));
      AppendTwice(TokensOf(ps[0]), AllTokensOf(ps[1..]), LexRecords(rs));
    }
  }

  /** Parse/print round trip: printing nested values, as words, quoted strings, literals, numbers, NIL and
      tuples, and parsing the records gives the values back. */
  lemma ParsePrintRoundTrip(ps: seq<Printed>)
    requires forall i :: 0 <= i < |ps| ==> WellFormed(ps[i])
    ensures ParseResponse(PrintAll(ps, [Line([])])) == Ok(ValuesOf(ps))
  {
    LexPrintedAll(ps, [Line([])]);
    assert LexRecords([Line([])]) == Lexed([], None) by {
      assert NextTurn([]) == End;
      assert [Line([])][1..] == [];
    }
    assert AllTokensOf(ps) + [] == AllTokensOf(ps);
    AllOfTokens(ps);
  }
}
