/** How the lexer reads words. */
module ImapWords {
  import opened Common
  import opened Decimals
  import opened ImapLexing

  /** Word characters and bracketed sections, such as BODY[HEADER (DATE)]. */
  ghost predicate WordShape(w: seq<byte>)
    decreases |w|
  {
    if w == [] then true
    else if w[0] == OPEN_SQUARE then
      exists k :: && 1 <= k < |w| && w[k] == CLOSE_SQUARE && (forall i :: 1 <= i < k ==> w[i] != CLOSE_SQUARE)
                  && WordShape(w[k + 1..])
    else IsWordChar(w[0]) && WordShape(w[1..])
  }

  lemma {:induction false} AccumulateWord(w: seq<byte>, t: seq<byte>, token: Token)
    requires WordShape(w)
    ensures Accumulate(w + t, token) == Accumulate(t, token + w)
    decreases |w|
  {
    hide WordShape, Accumulate, IsWordChar;
    if w == [] {
      assert w + t == t && token + w == token;
      return;
    }
    var k := WordStarts(w);
    if w[0] == OPEN_SQUARE {
      AccumulateSection(w, k, t, token);
      AccumulateWord(w[k + 1..], t, token + w[..k + 1]);
      assert token + w[..k + 1] + w[k + 1..] == token + w;
    } else {
      AccumulateChar(w, t, token);
      AccumulateWord(w[1..], t, token + [w[0]]);
      assert token + [w[0]] + w[1..] == token + w;
    }
  }

  lemma AccumulateChar(w: seq<byte>, t: seq<byte>, token: Token)
    requires w != [] && IsWordChar(w[0]) && w[0] != OPEN_SQUARE
    ensures Accumulate(w + t, token) == Accumulate(w[1..] + t, token + [w[0]])
  {
    assert (w + t)[0] == w[0] && (w + t)[1..] == w[1..] + t;
  }

  /** The shape of a word, by its first character. */
  lemma WordStarts(w: seq<byte>) returns (k: nat)
    requires WordShape(w) && w != []
    ensures w[0] == OPEN_SQUARE ==>
              && 1 <= k < |w| && w[k] == CLOSE_SQUARE && (forall i :: 1 <= i < k ==> w[i] != CLOSE_SQUARE)
              && WordShape(w[k + 1..])
    ensures w[0] != OPEN_SQUARE ==> IsWordChar(w[0]) && WordShape(w[1..])
  {
    k := 0;
    if w[0] == OPEN_SQUARE {
      k :| 1 <= k < |w| && w[k] == CLOSE_SQUARE && (forall i :: 1 <= i < k ==> w[i] != CLOSE_SQUARE)
           && WordShape(w[k + 1..]);
    }
  }

  lemma AccumulateSection(w: seq<byte>, k: nat, t: seq<byte>, token: Token)
    requires 1 <= k < |w| && w[0] == OPEN_SQUARE && w[k] == CLOSE_SQUARE
    requires forall i :: 1 <= i < k ==> w[i] != CLOSE_SQUARE
    ensures Accumulate(w + t, token) == Accumulate(w[k + 1..] + t, token + w[..k + 1])
  {
    var section, rest := w[1..k], w[k + 1..] + t;
    ReadSection(section, rest);
    assert (w + t)[1..] == section + [CLOSE_SQUARE] + rest;
    assert (w + t)[0] == OPEN_SQUARE;
    assert token + [OPEN_SQUARE] + (section + [CLOSE_SQUARE]) == token + w[..k + 1];
  }

  /** A bracketed section is read verbatim. */
  lemma {:induction false} ReadSection(s: seq<byte>, rest: seq<byte>)
    requires forall i :: 0 <= i < |s| ==> s[i] != CLOSE_SQUARE
    ensures ReadUntil(s + [CLOSE_SQUARE] + rest, CLOSE_SQUARE, false) == Some((s + [CLOSE_SQUARE], rest))
  {
    var t := s + [CLOSE_SQUARE] + rest;
    if s == [] {
      assert t == [CLOSE_SQUARE] + rest && t[1..] == rest;
    } else {
      assert t[1..] == s[1..] + [CLOSE_SQUARE] + rest;
      ReadSection(s[1..], rest);
      assert [s[0]] + (s[1..] + [CLOSE_SQUARE]) == s + [CLOSE_SQUARE];
    }
  }

  /** A word ends where nothing can extend it and no quote can break it. */
  predicate Delimited(t: seq<byte>) {
    t == [] || !(IsWordChar(t[0]) || t[0] == OPEN_SQUARE || t[0] == DQUOTE)
  }

  lemma LexWord(w: seq<byte>, t: seq<byte>, literal: Option<seq<byte>>)
    requires w != [] && WordShape(w) && Delimited(t)
    ensures LexText(w + t, literal) == Append([Seen(w, literal)], LexText(t, literal))
  {
    hide NextTurn, Accumulate, IsWordChar, WordShape, Seen, LexText;
    WordTurn(w, t);
    LexOneTurn(w + t, literal);
    assert SeenAll([w], literal) == [Seen(w, literal)];
    if t == [] {
      LexOneTurn(t, literal);
    } else if IsWhitespace(t[0]) {
      LexBlank(t, literal);
    } else {
      LexOneTurn(t, literal);
      assert SeenAll([w, [t[0]]], literal) == [Seen(w, literal)] + SeenAll([[t[0]]], literal);
    }
  }

  lemma LexOneTurn(s: seq<byte>, literal: Option<seq<byte>>)
    ensures NextTurn(s).End? ==> LexText(s, literal) == Lexed([], None)
    ensures NextTurn(s).Fail? ==> LexText(s, literal) == Lexed([], Some(NextTurn(s).error))
    ensures NextTurn(s).Yield? ==>
              LexText(s, literal) == Append(SeenAll(NextTurn(s).tokens, literal), LexText(NextTurn(s).rest, literal))
  {
    hide NextTurn, SeenAll;
  }

  /** A delimited word ends the turn, together with the single-character token behind it if there is one. */
  lemma WordTurn(w: seq<byte>, t: seq<byte>)
    requires w != [] && WordShape(w) && Delimited(t)
    ensures t == [] ==> NextTurn(w + t) == Yield([w], t) && NextTurn(t) == End
    ensures t != [] && IsWhitespace(t[0]) ==> NextTurn(w + t) == Yield([w], t[1..])
    ensures t != [] && !IsWhitespace(t[0]) ==>
              NextTurn(w + t) == Yield([w, [t[0]]], t[1..]) && NextTurn(t) == Yield([[t[0]]], t[1..])
  {
    assert !IsWhitespace(w[0]) && (w + t)[0] == w[0];
    AccumulateWord(w, t, []);
    assert [] + w == w;
    assert NextTurn(w + t) == Accumulate(t, w);
    hide WordShape;
  }

  /** White space before a token does not matter. */
  lemma LexBlank(t: seq<byte>, literal: Option<seq<byte>>)
    requires t != [] && IsWhitespace(t[0])
    ensures LexText(t, literal) == LexText(t[1..], literal)
  {
    assert NextTurn(t) == NextTurn(t[1..]);
  }

  lemma {:induction false} DigitsAreWord(s: seq<byte>)
    requires forall i :: 0 <= i < |s| ==> IsDigit(s[i])
    ensures WordShape(s)
  {
    if s != [] {
      assert IsDigit(s[0]);
      forall i | 0 <= i < |s[1..]| ensures IsDigit(s[1..][i]) { assert IsDigit(s[i + 1]); }
      DigitsAreWord(s[1..]);
    }
  }
}
