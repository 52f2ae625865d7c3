/** The fast parser for lists of message ids, compared with the general one. */
module ImapMessageList {
  import opened Common
  import opened Decimals
  import opened ImapLexing
  import opened ImapParsing
  import opened ImapWords
  import opened ImapPrinting

  datatype SearchIds = SearchIds(ids: seq<nat>, modseq: Option<Value>)

  datatype ListError =
    | UnexpectedData
    | NotAscii
    | UnexpectedFormat
    | ParseFailed(error: ParseError)
    | NotABytesName

  // ----- The pattern (\d+(?: +\d+)*)

  /** The longest run of digits at the front. */
  function TakeDigits(s: seq<byte>): (r: (seq<byte>, seq<byte>))
    ensures r.0 + r.1 == s && forall i :: 0 <= i < |r.0| ==> IsDigit(r.0[i])
    ensures r.1 == [] || !IsDigit(r.1[0])
  {
    if s != [] && IsDigit(s[0]) then
      var r := TakeDigits(s[1..]);
      assert [s[0]] + (r.0 + r.1) == s;
      assert [s[0]] + r.0 + r.1 == [s[0]] + (r.0 + r.1);
      ([s[0]] + r.0, r.1)
    else ([], s)
  }

  function SkipSpaces(s: seq<byte>): (r: seq<byte>)
    ensures |r| <= |s|
  {
    if s != [] && s[0] == SPACE then SkipSpaces(s[1..]) else s
  }

  predicate StartsWithDigit(s: seq<byte>) {
    s != [] && IsDigit(s[0])
  }

  /** The numbers in the longest match at the front of `s`, and the text after the match. */
  function MatchIds(s: seq<byte>): (r: (seq<nat>, seq<byte>))
    requires StartsWithDigit(s)
    ensures r.0 != [] && |r.1| < |s|
    ensures r.1 == [] || !IsDigit(r.1[0])
    decreases |s|
  {
    var (digits, rest) := TakeDigits(s);
    assert |rest| < |s| by { assert digits[0] == s[0]; }
    var next := SkipSpaces(rest);
    if |next| < |rest| && StartsWithDigit(next) then
      var r := MatchIds(next);
      ([DecimalValue(digits)] + r.0, r.1)
    else ([DecimalValue(digits)], rest)
  }

  // ----- Collecting ids and MODSEQ

  /** ASCII lower case. */
  function Lower(s: seq<byte>): seq<byte> {
    seq(|s|, i requires 0 <= i < |s| => if 65 <= s[i] <= 90 then s[i] + 32 else s[i])
  }

  const MODSEQ: seq<byte> := [109, 111, 100, 115, 101, 113]

  /** One item: a pair named MODSEQ sets modseq, a number is appended, anything else is ignored. */
  function AddItem(acc: SearchIds, item: Value): Result<SearchIds, ListError> {
    if item.Tuple? && |item.items| == 2 then
      if !item.items[0].Bytes? then Err(NotABytesName)
      else if Lower(item.items[0].b) == MODSEQ then Ok(acc.(modseq := Some(item.items[1])))
      else Ok(acc)
    else if item.Number? then Ok(acc.(ids := acc.ids + [item.n]))
    else Ok(acc)
  }

  function AddItems(acc: SearchIds, items: seq<Value>): Result<SearchIds, ListError>
    decreases |items|
  {
    if items == [] then Ok(acc)
    else
      match AddItem(acc, items[0])
      case Err(e) => Err(e)
      case Ok(acc') => AddItems(acc', items[1..])
  }

  /** The ids and MODSEQ among the values of a general parse. */
  function Collect(acc: SearchIds, parsed: Result<seq<Value>, ParseError>): Result<SearchIds, ListError> {
    match parsed
    case Err(e) => Err(ParseFailed(e))
    case Ok(items) => AddItems(acc, items)
  }

  const NO_IDS := SearchIds([], None)

  /** parse_message_list. */
  function ParseMessageList(data: seq<seq<byte>>): Result<SearchIds, ListError> {
    if |data| != 1 then Err(UnexpectedData)
    else if data[0] == [] then Ok(NO_IDS)
    else if !IsAscii(data[0]) then Err(NotAscii)
    else if !StartsWithDigit(data[0]) then Err(UnexpectedFormat)
    else
      var (ids, extra) := MatchIds(data[0]);
      if extra == [] then Ok(SearchIds(ids, None))
      else Collect(SearchIds(ids, None), ParseResponse([Line(extra)]))
  }

  predicate IsAscii(s: seq<byte>) {
    forall i :: 0 <= i < |s| ==> s[i] < 128
  }

  /** The same list by way of the general parser. */
  function ParseGenerally(s: seq<byte>): Result<SearchIds, ListError> {
    Collect(NO_IDS, ParseResponse([Line(s)]))
  }

  // ----- The fast path agrees with the general parser

  /** What the general parser makes of a text, after items already collected. */
  function Continue(acc: SearchIds, s: seq<byte>): Result<SearchIds, ListError> {
    Collect(acc, ParseAll(LexText(s, None)))
  }

  lemma OneRecord(s: seq<byte>)
    ensures ParseResponse([Line(s)]) == ParseAll(LexText(s, None))
  {
    var rs := [Line(s)];
    var l := LexText(s, None);
    assert rs[1..] == [] && LexRecords(rs[1..]) == Lexed([], None);
    assert LexRecord(rs[0]) == l;
    assert l.toks + [] == l.toks;
  }

  lemma DigitsToken(digits: seq<byte>)
    requires AllDigits(digits)
    ensures WordShape(digits) && Seen(digits, None) == Tok(digits, None)
    ensures digits != OPEN && SimpleAtom(Tok(digits, None)) == Ok(Number(DecimalValue(digits)))
  {
    DigitsAreWord(digits);
    assert IsDigit(digits[0]);
  }

  /** A delimited number in front adds its value and nothing else. */
  lemma ContinueNumber(acc: SearchIds, digits: seq<byte>, rest: seq<byte>)
    requires AllDigits(digits) && Delimited(rest)
    ensures Continue(acc, digits + rest) == Continue(acc.(ids := acc.ids + [DecimalValue(digits)]), rest)
  {
    DigitsToken(digits);
    LexWord(digits, rest, None);
    var l := LexText(rest, None);
    var l' := LexText(digits + rest, None);
    assert l'.toks[0] == Tok(digits, None) && Tail(l') == l;
    hide LexText;
    var parsed := ParseAll(l);
    var n := Number(DecimalValue(digits));
    assert ParseAll(l') == match parsed case Err(e) => Err(e) case Ok(vs) => Ok([n] + vs);
    if parsed.Ok? {
      assert ([n] + parsed.value)[1..] == parsed.value;
    }
  }

  lemma {:induction false} ContinueSpaces(acc: SearchIds, s: seq<byte>)
    ensures Continue(acc, SkipSpaces(s)) == Continue(acc, s)
  {
    if s != [] && s[0] == SPACE {
      LexBlank(s, None);
      ContinueSpaces(acc, s[1..]);
    }
  }

  /** Whatever follows the ids, if it does not run into the last one, the fast parser and the general
      parser give the same ids, the same MODSEQ or the same error. */
  lemma {:induction false} FastEqualsGeneral(acc: SearchIds, s: seq<byte>)
    requires StartsWithDigit(s) && Delimited(MatchIds(s).1)
    ensures Continue(acc, s) == Continue(acc.(ids := acc.ids + MatchIds(s).0), MatchIds(s).1)
    decreases |s|
  {
    hide Continue, DecimalValue;
    var (digits, rest) := TakeDigits(s);
    assert digits[0] == s[0];
    var acc' := acc.(ids := acc.ids + [DecimalValue(digits)]);
    var next := SkipSpaces(rest);
    if |next| < |rest| && StartsWithDigit(next) {
      assert rest[0] == SPACE;
      ContinueNumber(acc, digits, rest);
      ContinueSpaces(acc', rest);
      FastEqualsGeneral(acc', next);
      assert acc'.ids + MatchIds(next).0 == acc.ids + MatchIds(s).0;
    } else {
      ContinueNumber(acc, digits, rest);
    }
  }

  /** parse_message_list returns what parse_response yields on the same text. */
  lemma FastPathIsGeneral(s: seq<byte>)
    requires IsAscii(s) && StartsWithDigit(s) && Delimited(MatchIds(s).1)
    ensures ParseMessageList([s]) == ParseGenerally(s)
  {
    var (ids, extra) := MatchIds(s);
    FastEqualsGeneral(NO_IDS, s);
    OneRecord(s);
    OneRecord(extra);
    assert [] + ids == ids;
    if extra == [] {
      assert NextTurn([]) == End;
      assert LexText([], None) == Lexed([], None);
    }
  }

  // ----- Lists as servers send them

  ghost predicate Blank(s: seq<byte>) {
    s != [] && forall i :: 0 <= i < |s| ==> IsWhitespace(s[i])
  }

  /** Ids separated by blanks, with `tail` behind the last one. */
  ghost function ListText(ids: seq<seq<byte>>, gaps: seq<seq<byte>>, tail: seq<byte>): seq<byte>
    requires ids != [] && |gaps| == |ids| - 1
    decreases |ids|
  {
    if |ids| == 1 then ids[0] + tail else ids[0] + (gaps[0] + ListText(ids[1..], gaps[1..], tail))
  }

  ghost predicate ListShape(ids: seq<seq<byte>>, gaps: seq<seq<byte>>) {
    && ids != [] && |gaps| == |ids| - 1
    && (forall i :: 0 <= i < |ids| ==> AllDigits(ids[i]))
    && (forall i :: 0 <= i < |gaps| ==> Blank(gaps[i]))
  }

  lemma ListShapeTail(ids: seq<seq<byte>>, gaps: seq<seq<byte>>)
    requires ListShape(ids, gaps) && |ids| > 1
    ensures AllDigits(ids[0]) && Blank(gaps[0]) && ListShape(ids[1..], gaps[1..])
  {
  }

  ghost function Values(ids: seq<seq<byte>>): seq<nat>
    requires forall i :: 0 <= i < |ids| ==> AllDigits(ids[i])
  {
    if ids == [] then [] else assert AllDigits(ids[0]); [DecimalValue(ids[0])] + Values(ids[1..])
  }

  lemma {:induction false} TakeWholeRun(digits: seq<byte>, rest: seq<byte>)
    requires forall i :: 0 <= i < |digits| ==> IsDigit(digits[i])
    requires rest == [] || !IsDigit(rest[0])
    ensures TakeDigits(digits + rest) == (digits, rest)
  {
    if digits == [] {
      assert digits + rest == rest;
    } else {
      assert IsDigit(digits[0]);
      assert (digits + rest)[1..] == digits[1..] + rest && (digits + rest)[0] == digits[0];
      TakeWholeRun(digits[1..], rest);
      assert [digits[0]] + digits[1..] == digits;
    }
  }

  /** Skipping spaces stops inside the gap or passes all of it. */
  lemma {:induction false} SkipGap(gap: seq<byte>, t: seq<byte>)
    requires (forall i :: 0 <= i < |gap| ==> IsWhitespace(gap[i])) && StartsWithDigit(t)
    ensures var r := SkipSpaces(gap + t);
            r == t || (r != [] && IsWhitespace(r[0]))
  {
    if gap == [] {
      assert gap + t == t;
      assert IsDigit(t[0]) && SkipSpaces(t) == t;
    } else {
      assert (gap + t)[1..] == gap[1..] + t && (gap + t)[0] == gap[0];
      assert IsWhitespace(gap[0]);
      forall i | 0 <= i < |gap[1..]| ensures IsWhitespace(gap[1..][i]) { assert IsWhitespace(gap[i + 1]); }
      SkipGap(gap[1..], t);
      assert SkipSpaces(gap + t) == if gap[0] == SPACE then SkipSpaces(gap[1..] + t) else gap + t;
    }
  }

  lemma ListStartsWithDigit(ids: seq<seq<byte>>, gaps: seq<seq<byte>>, tail: seq<byte>)
    requires ListShape(ids, gaps)
    ensures StartsWithDigit(ListText(ids, gaps, tail))
  {
    assert AllDigits(ids[0]) && IsDigit(ids[0][0]);
  }

  /** In such a list the fast pattern never stops inside a word. */
  lemma {:induction false} ListDelimited(ids: seq<seq<byte>>, gaps: seq<seq<byte>>, tail: seq<byte>)
    requires ListShape(ids, gaps) && Delimited(tail) && !StartsWithDigit(SkipSpaces(tail))
    ensures StartsWithDigit(ListText(ids, gaps, tail)) && Delimited(MatchIds(ListText(ids, gaps, tail)).1)
    decreases |ids|
  {
    ListStartsWithDigit(ids, gaps, tail);
    assert AllDigits(ids[0]);
    if |ids| == 1 {
      TakeWholeRun(ids[0], tail);
    } else {
      ListShapeTail(ids, gaps);
      var t := ListText(ids[1..], gaps[1..], tail);
      ListDelimited(ids[1..], gaps[1..], tail);
      assert IsWhitespace(gaps[0][0]) && (gaps[0] + t)[0] == gaps[0][0];
      TakeWholeRun(ids[0], gaps[0] + t);
      SkipGap(gaps[0], t);
    }
  }

  lemma {:induction false} ContinueBlank(acc: SearchIds, gap: seq<byte>, t: seq<byte>)
    requires forall i :: 0 <= i < |gap| ==> IsWhitespace(gap[i])
    ensures Continue(acc, gap + t) == Continue(acc, t)
  {
    if gap == [] {
      assert gap + t == t;
    } else {
      assert (gap + t)[1..] == gap[1..] + t;
      LexBlank(gap + t, None);
      ContinueBlank(acc, gap[1..], t);
    }
  }

  lemma ContinueIdAndGap(acc: SearchIds, digits: seq<byte>, gap: seq<byte>, t: seq<byte>)
    requires AllDigits(digits) && Blank(gap)
    ensures Continue(acc, digits + (gap + t)) == Continue(acc.(ids := acc.ids + [DecimalValue(digits)]), t)
  {
    hide Continue;
    assert IsWhitespace(gap[0]) && (gap + t)[0] == gap[0];
    ContinueNumber(acc, digits, gap + t);
    ContinueBlank(acc.(ids := acc.ids + [DecimalValue(digits)]), gap, t);
  }

  /** The general parser collects the values of the ids and goes on with the tail. */
  lemma {:induction false} ContinueList(acc: SearchIds, ids: seq<seq<byte>>, gaps: seq<seq<byte>>, tail: seq<byte>)
    requires ListShape(ids, gaps) && Delimited(tail)
    ensures Continue(acc, ListText(ids, gaps, tail)) == Continue(acc.(ids := acc.ids + Values(ids)), tail)
    decreases |ids|
  {
    hide Continue, DecimalValue, Delimited, ListText, Values;
    assert AllDigits(ids[0]);
    if |ids| == 1 {
      OneIdText(ids, gaps, tail);
      OneValue(ids);
      ContinueNumber(acc, ids[0], tail);
    } else {
      var acc' := acc.(ids := acc.ids + [DecimalValue(ids[0])]);
      var t := ListText(ids[1..], gaps[1..], tail);
      ListShapeTail(ids, gaps);
      MoreIdsText(ids, gaps, tail);
      ContinueIdAndGap(acc, ids[0], gaps[0], t);
      ContinueList(acc', ids[1..], gaps[1..], tail);
      MoreValues(ids);
      assert acc'.ids + Values(ids[1..]) == acc.ids + Values(ids);
    }
  }

  lemma OneIdText(ids: seq<seq<byte>>, gaps: seq<seq<byte>>, tail: seq<byte>)
    requires |ids| == 1 && gaps == []
    ensures ListText(ids, gaps, tail) == ids[0] + tail
  {
  }

  lemma MoreIdsText(ids: seq<seq<byte>>, gaps: seq<seq<byte>>, tail: seq<byte>)
    requires |ids| > 1 && |gaps| == |ids| - 1
    ensures ListText(ids, gaps, tail) == ids[0] + (gaps[0] + ListText(ids[1..], gaps[1..], tail))
  {
  }

  lemma MoreValues(ids: seq<seq<byte>>)
    requires ids != [] && AllDigits(ids[0]) && forall i :: 0 <= i < |ids| ==> AllDigits(ids[i])
    ensures Values(ids) == [DecimalValue(ids[0])] + Values(ids[1..])
  {
    hide DecimalValue;
  }

  lemma OneValue(ids: seq<seq<byte>>)
    requires |ids| == 1 && AllDigits(ids[0])
    ensures Values(ids) == [DecimalValue(ids[0])]
  {
    assert ids[1..] == [];
  }

  ghost function ModseqPair(name: seq<byte>, n: nat): seq<byte> {
    OPEN + (name + ([SPACE] + (Decimal(n) + CLOSE)))
  }

  /** ` (MODSEQ n)`, the name in any letter case. */
  ghost function ModseqTail(name: seq<byte>, n: nat): seq<byte> {
    [SPACE] + ModseqPair(name, n)
  }

  lemma PrependToLine(t: seq<byte>, text: seq<byte>)
    ensures PrependText(t, [Line(text)]) == [Line(t + text)]
  {
    assert [Line(text)][1..] == [];
  }

  lemma ModseqPrinted(name: seq<byte>, n: nat)
    ensures PrintAll([PTuple([PWord(name), PNumber(n)])], [Line([])]) == [Line(ModseqPair(name, n))]
  {
    var items := [PWord(name), PNumber(n)];
    PrependToLine(CLOSE, []);
    assert CLOSE + [] == CLOSE;
    PrependToLine(Decimal(n), CLOSE);
    assert items[1..] == [PNumber(n)];
    assert PrintAll(items[1..], [Line(CLOSE)]) == [Line(Decimal(n) + CLOSE)] by {
      assert Print(PNumber(n), [Line(CLOSE)]) == [Line(Decimal(n) + CLOSE)];
    }
    PrependToLine([SPACE], Decimal(n) + CLOSE);
    PrependToLine(name, [SPACE] + (Decimal(n) + CLOSE));
    assert PrintAll(items, [Line(CLOSE)]) == [Line(name + ([SPACE] + (Decimal(n) + CLOSE)))] by {
      assert Print(items[0], [Line([SPACE] + (Decimal(n) + CLOSE))]) == [Line(name + ([SPACE] + (Decimal(n) + CLOSE)))];
    }
    PrependToLine(OPEN, name + ([SPACE] + (Decimal(n) + CLOSE)));
    assert Print(PTuple(items), [Line([])]) == [Line(ModseqPair(name, n))];
  }

  lemma ModseqValues(name: seq<byte>, n: nat)
    ensures ValuesOf([PTuple([PWord(name), PNumber(n)])]) == [Tuple([Bytes(name), Number(n)])]
  {
    var items := [PWord(name), PNumber(n)];
    assert items[1..] == [PNumber(n)] && items[1..][1..] == [];
    assert ValueOf(items[0]) == Bytes(name) && ValueOf(items[1]) == Number(n);
    assert ValuesOf(items[1..]) == [Number(n)];
    assert ValuesOf(items) == [Bytes(name), Number(n)];
    assert ValueOf(PTuple(items)) == Tuple([Bytes(name), Number(n)]);
    assert [PTuple(items)][1..] == [];
  }

  lemma ContinueModseq(acc: SearchIds, name: seq<byte>, n: nat)
    requires PlainWord(name) && Lower(name) == MODSEQ
    ensures Continue(acc, ModseqTail(name, n)) == Ok(acc.(modseq := Some(Number(n))))
  {
    var p := PTuple([PWord(name), PNumber(n)]);
    var tail := ModseqTail(name, n);
    var pair := Tuple([Bytes(name), Number(n)]);
    assert ParseAll(LexText(tail, None)) == Ok([pair]) by {
      hide LexText, ParseAll, Print, PrintAll, ValuesOf, WordShape;
      assert tail[0] == SPACE && tail[1..] == ModseqPair(name, n);
      LexBlank(tail, None);
      OneRecord(ModseqPair(name, n));
      ModseqPrinted(name, n);
      assert WellFormed(p);
      ParsePrintRoundTrip([p]);
      ModseqValues(name, n);
    }
    hide LexText, ParseAll;
    assert [pair][1..] == [];
    assert AddItem(acc, pair) == Ok(acc.(modseq := Some(Number(n))));
    assert AddItems(acc, [pair]) == AddItems(acc.(modseq := Some(Number(n))), []);
  }

  /** For ids in any blanks, with or without MODSEQ, the fast parser returns exactly the ids and the MODSEQ value. */
  lemma ListParsed(ids: seq<seq<byte>>, gaps: seq<seq<byte>>)
    requires ListShape(ids, gaps) && IsAscii(ListText(ids, gaps, []))
    ensures ParseMessageList([ListText(ids, gaps, [])]) == Ok(SearchIds(Values(ids), None))
  {
    var s := ListText(ids, gaps, []);
    ListDelimited(ids, gaps, []);
    FastPathIsGeneral(s);
    OneRecord(s);
    ContinueList(NO_IDS, ids, gaps, []);
    assert [] + Values(ids) == Values(ids);
    assert NextTurn([]) == End;
    assert LexText([], None) == Lexed([], None);
  }

  lemma ListWithModseqParsed(ids: seq<seq<byte>>, gaps: seq<seq<byte>>, name: seq<byte>, n: nat)
    requires ListShape(ids, gaps) && PlainWord(name) && Lower(name) == MODSEQ
    requires IsAscii(ListText(ids, gaps, ModseqTail(name, n)))
    ensures ParseMessageList([ListText(ids, gaps, ModseqTail(name, n))])
         == Ok(SearchIds(Values(ids), Some(Number(n))))
  {
    var tail := ModseqTail(name, n);
    var s := ListText(ids, gaps, tail);
    assert SkipSpaces(tail) == SkipSpaces(tail[1..]) && tail[1..][0] == OPEN_PAREN;
    ListDelimited(ids, gaps, tail);
    FastPathIsGeneral(s);
    OneRecord(s);
    ContinueList(NO_IDS, ids, gaps, tail);
    ContinueModseq(SearchIds([] + Values(ids), None), name, n);
    assert [] + Values(ids) == Values(ids);
  }

  // ----- Exactly when the two parsers agree

  function Numbers(items: seq<Value>): nat {
    if items == [] then 0 else (if items[0].Number? then 1 else 0) + Numbers(items[1..])
  }

  lemma {:induction false} AddItemsCounts(acc: SearchIds, items: seq<Value>)
    requires AddItems(acc, items).Ok?
    ensures |AddItems(acc, items).value.ids| == |acc.ids| + Numbers(items)
    decreases |items|
  {
    if items != [] {
      AddItemsCounts(AddItem(acc, items[0]).value, items[1..]);
    }
  }

  /** A turn whose first token has `p` in front. */
  function PrefixTurn(p: Token, t: Turn): Turn {
    if t.Yield? && t.tokens != [] then Yield([p + t.tokens[0]] + t.tokens[1..], t.rest) else t
  }

  lemma {:induction false} AccumulatePrefix(s: seq<byte>, p: Token, token: Token)
    requires token != []
    ensures Accumulate(s, p + token) == PrefixTurn(p, Accumulate(s, token))
    ensures Accumulate(s, token) != End
    ensures Accumulate(s, token).Yield? ==>
              Accumulate(s, token).tokens != [] && token <= Accumulate(s, token).tokens[0]
    decreases |s|
  {
    if s != [] {
      var c := s[0];
      if IsWordChar(c) {
        assert p + token + [c] == p + (token + [c]);
        AccumulatePrefix(s[1..], p, token + [c]);
      } else if c == OPEN_SQUARE {
        var r := ReadUntil(s[1..], CLOSE_SQUARE, false);
        if r.Some? {
          assert p + token + [c] + r.value.0 == p + (token + [c] + r.value.0);
          AccumulatePrefix(r.value.1, p, token + [c] + r.value.0);
        }
      }
    }
  }

  /** Text that can extend a word: the number in front of it is swallowed. */
  lemma GluedTurn(digits: seq<byte>, extra: seq<byte>)
    requires AllDigits(digits) && !Delimited(extra) && extra[0] != DQUOTE && !IsDigit(extra[0])
    ensures NextTurn(digits + extra) == PrefixTurn(digits, NextTurn(extra))
    ensures NextTurn(extra).Yield? ==>
              && NextTurn(extra).tokens != [] && NextTurn(extra).tokens[0] != []
              && NextTurn(extra).tokens[0][0] == extra[0]
    ensures NextTurn(extra) != End
  {
    DigitsAreWord(digits);
    assert IsDigit(digits[0]);
    AccumulateWord(digits, extra, []);
    assert [] + digits == digits;
    var c := extra[0];
    if IsWordChar(c) {
      assert [] + [c] == [c];
      AccumulatePrefix(extra[1..], digits, [c]);
    } else {
      var r := ReadUntil(extra[1..], CLOSE_SQUARE, false);
      if r.Some? {
        assert digits + [c] + r.value.0 == digits + ([c] + r.value.0);
        assert [] + [c] + r.value.0 == [c] + r.value.0;
        AccumulatePrefix(r.value.1, digits, [c] + r.value.0);
      }
    }
  }

  /** The rest of the text is lexed alike with and without the number in front. */
  lemma GluedTokens(digits: seq<byte>, extra: seq<byte>)
    requires AllDigits(digits) && !Delimited(extra) && extra[0] != DQUOTE && !IsDigit(extra[0])
    ensures NextTurn(extra).Fail? ==> LexText(extra, None) == Lexed([], Some(NextTurn(extra).error))
    ensures !NextTurn(extra).Fail? ==>
              var a, b := LexText(digits + extra, None), LexText(extra, None);
              && a.toks != [] && b.toks != [] && Tail(a) == Tail(b)
              && b.toks[0].token != [] && b.toks[0].token[0] == extra[0] && b.toks[0].literal.None?
              && a.toks[0] == Tok(digits + b.toks[0].token, None)
  {
    hide *;
    GluedTurn(digits, extra);
    LexOneTurn(extra, None);
    LexOneTurn(digits + extra, None);
    var t := NextTurn(extra);
    GluedFirst(digits, t);
    if t.Yield? {
      FirstSeen(t.tokens, t.rest);
      FirstSeen([digits + t.tokens[0]] + t.tokens[1..], t.rest);
    }
  }

  lemma GluedFirst(digits: seq<byte>, t: Turn)
    requires AllDigits(digits) && (t.Yield? ==> t.tokens != [])
    ensures PrefixTurn(digits, t) == if t.Yield? then Yield([digits + t.tokens[0]] + t.tokens[1..], t.rest) else t
    ensures t.Yield? ==>
              !IsMarker(digits + t.tokens[0]) && ([digits + t.tokens[0]] + t.tokens[1..])[1..] == t.tokens[1..]
  {
    assert IsDigit(digits[0]);
    hide AllDigits;
    assert t.Yield? ==> (digits + t.tokens[0])[0] == digits[0];
  }

  lemma FirstSeen(tokens: seq<Token>, rest: seq<byte>)
    requires tokens != []
    ensures var l := Append(SeenAll(tokens, None), LexText(rest, None));
            && l.toks != [] && l.toks[0] == Tok(tokens[0], None)
            && Tail(l) == Append(SeenAll(tokens[1..], None), LexText(rest, None))
  {
    hide LexText;
    var all, l := SeenAll(tokens, None), LexText(rest, None);
    assert all[1..] == SeenAll(tokens[1..], None);
    assert (all + l.toks)[1..] == all[1..] + l.toks;
  }

  /** Neither token adds a number, but only one of the parsers has counted the digits. */
  lemma GluedAtoms(digits: seq<byte>, token: Token)
    requires AllDigits(digits) && token != [] && !IsDigit(token[0])
    ensures digits + token != OPEN && SimpleAtom(Tok(digits + token, None)) == Ok(Bytes(digits + token))
    ensures SimpleAtom(Tok(token, None)).Ok? ==>
              var v := SimpleAtom(Tok(token, None)).value; v.Nil? || v.Bytes?
  {
    var w := digits + token;
    assert IsDigit(digits[0]);
    assert w[0] == digits[0] && w[|digits|] == token[0];
    hide AllDigits, PyInt, DecimalValue, Inner;
    StartsNoSpecial(w, |digits|);
    assert !AllDigits(token) by { NotAllDigits(token, 0); }
  }

  lemma NotAllDigits(w: Token, k: nat)
    requires k < |w| && !IsDigit(w[k])
    ensures !AllDigits(w)
  {
  }

  lemma StartsNoSpecial(w: Token, k: nat)
    requires 0 < k < |w| && IsDigit(w[0]) && !IsDigit(w[k])
    ensures w != OPEN && w != NIL && !IsMarker(w) && w[0] != DQUOTE && !AllDigits(w)
  {
    NotAllDigits(w, k);
    hide AllDigits;
  }

  /** A quote that runs into an id is an error of the general parser. */
  lemma GluedQuote(acc: SearchIds, digits: seq<byte>, extra: seq<byte>)
    requires AllDigits(digits) && extra != [] && extra[0] == DQUOTE
    ensures Continue(acc, digits + extra).Err?
  {
    DigitsAreWord(digits);
    AccumulateWord(digits, extra, []);
    assert [] + digits == digits && IsDigit(digits[0]);
    assert NextTurn(digits + extra) == Fail(QuoteInsideWord);
    hide NextTurn, AddItems;
  }

  lemma GluedCounts(acc: SearchIds, digits: seq<byte>, extra: seq<byte>)
    requires AllDigits(digits) && !Delimited(extra) && !IsDigit(extra[0])
    requires Continue(acc.(ids := acc.ids + [DecimalValue(digits)]), extra).Ok?
    ensures Continue(acc, digits + extra).Ok? ==>
              |Continue(acc, digits + extra).value.ids| + 1
              == |Continue(acc.(ids := acc.ids + [DecimalValue(digits)]), extra).value.ids|
  {
    hide LexText, NextTurn, IsDigit, DecimalValue, AddItems, SimpleAtom, IsWordChar;
    if extra[0] == DQUOTE {
      GluedQuote(acc, digits, extra);
    } else {
      GluedTokens(digits, extra);
      var a, b := LexText(digits + extra, None), LexText(extra, None);
      assert ParseAll(b).Ok? && !NextTurn(extra).Fail?;
      GluedAtoms(digits, b.toks[0].token);
      assert b.toks[0] == Tok(b.toks[0].token, None);
      NoParenthesis(b.toks[0].token);
      GluedValues(acc, acc.(ids := acc.ids + [DecimalValue(digits)]), a, b);
    }
  }

  lemma NoParenthesis(token: Token)
    requires token != [] && !Delimited(token)
    ensures token != OPEN
  {
  }

  /** The token streams differ in their first token, which adds no number. */
  lemma GluedValues(acc: SearchIds, acc': SearchIds, a: Lexed, b: Lexed)
    requires |acc'.ids| == |acc.ids| + 1 && a.toks != [] && b.toks != [] && Tail(a) == Tail(b)
    requires a.toks[0].token != OPEN && b.toks[0].token != OPEN
    requires SimpleAtom(a.toks[0]).Ok? && SimpleAtom(a.toks[0]).value.Bytes?
    requires SimpleAtom(b.toks[0]).Ok? ==> var v := SimpleAtom(b.toks[0]).value; v.Nil? || v.Bytes?
    requires Collect(acc', ParseAll(b)).Ok?
    ensures Collect(acc, ParseAll(a)).Ok? ==>
              |Collect(acc, ParseAll(a)).value.ids| + 1 == |Collect(acc', ParseAll(b)).value.ids|
  {
    hide SimpleAtom, AddItems;
    SimpleFirst(a);
    SimpleFirst(b);
    hide Atom, ParseAll;
    var v, vs := SimpleAtom(b.toks[0]).value, ParseAll(Tail(b)).value;
    CollectCounts(acc, SimpleAtom(a.toks[0]).value, vs);
    CollectCounts(acc', v, vs);
  }

  lemma SimpleFirst(l: Lexed)
    requires l.toks != [] && l.toks[0].token != OPEN
    ensures ParseAll(l).Ok? ==>
              && SimpleAtom(l.toks[0]).Ok? && ParseAll(Tail(l)).Ok?
              && ParseAll(l) == Ok([SimpleAtom(l.toks[0]).value] + ParseAll(Tail(l)).value)
    ensures SimpleAtom(l.toks[0]).Ok? && ParseAll(Tail(l)).Ok? ==> ParseAll(l).Ok?
  {
    hide SimpleAtom;
  }

  lemma CollectCounts(acc: SearchIds, first: Value, vs: seq<Value>)
    requires first.Nil? || first.Bytes?
    ensures AddItems(acc, [first] + vs).Ok? ==> |AddItems(acc, [first] + vs).value.ids| == |acc.ids| + Numbers(vs)
  {
    assert ([first] + vs)[1..] == vs;
    if AddItems(acc, vs).Ok? { AddItemsCounts(acc, vs); }
  }

  lemma {:induction false} GluedDiffers(acc: SearchIds, s: seq<byte>)
    requires StartsWithDigit(s) && !Delimited(MatchIds(s).1)
    requires Continue(acc.(ids := acc.ids + MatchIds(s).0), MatchIds(s).1).Ok?
    ensures Continue(acc, s) != Continue(acc.(ids := acc.ids + MatchIds(s).0), MatchIds(s).1)
    decreases |s|
  {
    hide Continue;
    var (digits, rest) := TakeDigits(s);
    assert digits[0] == s[0];
    var next := SkipSpaces(rest);
    if |next| < |rest| && StartsWithDigit(next) {
      var acc' := acc.(ids := acc.ids + [DecimalValue(digits)]);
      assert rest[0] == SPACE;
      ContinueNumber(acc, digits, rest);
      ContinueSpaces(acc', rest);
      assert acc'.ids + MatchIds(next).0 == acc.ids + MatchIds(s).0;
      GluedDiffers(acc', next);
    } else {
      GluedCounts(acc, digits, rest);
    }
  }

  /** Whenever one of the parsers succeeds, the two agree exactly when nothing runs into the last id. */
  lemma FastPathExact(s: seq<byte>)
    requires IsAscii(s) && StartsWithDigit(s)
    requires ParseMessageList([s]).Ok? || ParseGenerally(s).Ok?
    ensures ParseMessageList([s]) == ParseGenerally(s) <==> Delimited(MatchIds(s).1)
  {
    if Delimited(MatchIds(s).1) {
      FastPathIsGeneral(s);
    } else if ParseMessageList([s]).Ok? {
      var (ids, extra) := MatchIds(s);
      assert [] + ids == ids;
      OneRecord(s);
      OneRecord(extra);
      GluedDiffers(NO_IDS, s);
    }
  }

  /** A plain word alone is a value that adds no id. */
  lemma ContinueWord(acc: SearchIds, w: seq<byte>)
    requires PlainWord(w)
    ensures Continue(acc, w) == Ok(acc)
  {
    var tok := Tok(w, None);
    assert LexText(w, None) == Lexed([tok], None) by {
      LexWord(w, [], None);
      assert w + [] == w && NextTurn([]) == End && [tok] + [] == [tok];
    }
    hide LexText, WordShape;
    assert !(|w| >= 2 && w[0] == DQUOTE) && tok.token != OPEN by { NoQuoteFirst(w); }
    assert SimpleAtom(tok) == Ok(Bytes(w));
    assert [tok][1..] == [];
    var l := Lexed([tok], None);
    assert Atom(tok, Tail(l)) == Ok((Bytes(w), Lexed([], None)));
    assert ParseAll(l) == Ok([Bytes(w)]) by { assert [Bytes(w)] + [] == [Bytes(w)]; }
    hide ParseAll;
    assert [Bytes(w)][1..] == [] && AddItem(acc, Bytes(w)) == Ok(acc);
    assert AddItems(acc, [Bytes(w)]) == AddItems(acc, []);
  }

  lemma NoQuoteFirst(w: seq<byte>)
    requires PlainWord(w)
    ensures w[0] != DQUOTE && w != OPEN
  {
  }

  /** The pattern stops behind digits that are followed by something else than spaces and a digit. */
  lemma MatchLast(digits: seq<byte>, extra: seq<byte>)
    requires AllDigits(digits) && extra != [] && extra[0] != SPACE && !IsDigit(extra[0])
    ensures StartsWithDigit(digits + extra) && MatchIds(digits + extra) == ([DecimalValue(digits)], extra)
  {
    hide DecimalValue;
    TakeWholeRun(digits, extra);
    assert IsDigit(digits[0]) && (digits + extra)[0] == digits[0];
  }

  lemma MatchMore(digits: seq<byte>, more: seq<byte>)
    requires AllDigits(digits) && StartsWithDigit(more)
    ensures StartsWithDigit(digits + ([SPACE] + more))
    ensures MatchIds(digits + ([SPACE] + more)) == ([DecimalValue(digits)] + MatchIds(more).0, MatchIds(more).1)
  {
    hide DecimalValue;
    TakeWholeRun(digits, [SPACE] + more);
    assert IsDigit(digits[0]) && (digits + ([SPACE] + more))[0] == digits[0];
    SpaceSkipped(more);
  }

  lemma SpaceSkipped(more: seq<byte>)
    requires StartsWithDigit(more)
    ensures SkipSpaces([SPACE] + more) == more
  {
    assert ([SPACE] + more)[1..] == more;
  }

  const ONE: seq<byte> := [49]
  const TWO: seq<byte> := [50]
  const ABC: seq<byte> := [97, 98, 99]

  lemma ExampleWords()
    ensures PlainWord(ABC) && PlainWord(TWO + ABC) && AllDigits(ONE) && AllDigits(TWO)
    ensures DecimalValue(ONE) == 1 && DecimalValue(TWO) == 2
  {
    assert ABC[1..] == [98, 99] && ABC[1..][1..] == [99] && ABC[1..][1..][1..] == [];
    assert WordShape([99]) && WordShape([98, 99]) && WordShape(ABC);
    assert (TWO + ABC)[1..] == ABC && (TWO + ABC)[0] == 50;
    assert !IsDigit(ABC[0]) && (TWO + ABC)[1] == ABC[0];
    assert ONE[..0] == [] && TWO[..0] == [];
  }

  lemma FastOnExample()
    ensures ParseMessageList([ONE + ([SPACE] + (TWO + ABC))]) == Ok(SearchIds([1, 2], None))
  {
    hide WordShape, MatchIds, DecimalValue, ParseResponse;
    ExampleWords();
    MatchLast(TWO, ABC);
    MatchMore(ONE, TWO + ABC);
    assert [1] + [2] == [1, 2];
    OneRecord(ABC);
    ContinueWord(SearchIds([1, 2], None), ABC);
    assert IsAscii(ONE + ([SPACE] + (TWO + ABC)));
  }

  lemma GeneralOnExample()
    ensures ParseGenerally(ONE + ([SPACE] + (TWO + ABC))) == Ok(SearchIds([1], None))
  {
    hide WordShape, DecimalValue, Continue;
    var rest := [SPACE] + (TWO + ABC);
    ExampleWords();
    assert Delimited(rest) && StartsWithDigit(TWO + ABC);
    ContinueNumber(NO_IDS, ONE, rest);
    assert [] + [1] == [1];
    ContinueSpaces(SearchIds([1], None), rest);
    SpaceSkipped(TWO + ABC);
    ContinueWord(SearchIds([1], None), TWO + ABC);
    GeneralIsContinue(ONE + rest);
  }

  /** On `1 2abc` the fast parser returns the ids 1 and 2, the general one only 1. */
  lemma GluedListDiffers()
    ensures ParseMessageList([[49, 32, 50, 97, 98, 99]]) == Ok(SearchIds([1, 2], None))
    ensures ParseGenerally([49, 32, 50, 97, 98, 99]) == Ok(SearchIds([1], None))
  {
    hide ParseMessageList, ParseGenerally;
    FastOnExample();
    GeneralOnExample();
    assert ONE + ([SPACE] + (TWO + ABC)) == [49, 32, 50, 97, 98, 99];
  }

  lemma GeneralIsContinue(s: seq<byte>)
    ensures ParseGenerally(s) == Continue(NO_IDS, s)
  {
    OneRecord(s);
  }
}
