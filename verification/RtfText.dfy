/** striprtf: a token pattern and a state machine over groups. */
module RtfText {
  import opened Common
  import opened Decimals

  /** A character, by its code point. */
  type codepoint = c: int | 0 <= c <= 0x10FFFF witness 0

  const BACKSLASH: codepoint := 92
  const OPEN: codepoint := 123
  const CLOSE: codepoint := 125
  const APOSTROPHE: codepoint := 39
  const SPACE: codepoint := 32
  const MINUS: codepoint := 45
  const CR: codepoint := 13
  const LF: codepoint := 10

  predicate IsLetter(c: int) {
    65 <= c <= 90 || 97 <= c <= 122
  }

  predicate IsHex(c: int) {
    IsDigit(c) || 65 <= c <= 70 || 97 <= c <= 102
  }

  predicate IsNewline(c: int) {
    c == CR || c == LF
  }

  // ----- The pattern

  /** What one match of the pattern is, by the group that took part in it. */
  datatype Token =
    | Word(word: seq<codepoint>, arg: Option<int>)
    | Hex(code: byte)
    | Symbol(c: codepoint)
    | Brace(open: bool)
    | Newlines
    | Text(c: codepoint)

  /** `[a-z]{0,max}`, greedy, in any letter case. */
  function TakeLetters(s: seq<codepoint>, max: nat): (r: (seq<codepoint>, seq<codepoint>))
    ensures |r.0| + |r.1| == |s| && s == r.0 + r.1
    ensures forall i :: 0 <= i < |r.0| ==> IsLetter(r.0[i])
  {
    if s != [] && max > 0 && IsLetter(s[0]) then
      var r := TakeLetters(s[1..], max - 1);
      assert [s[0]] + (r.0 + r.1) == s;
      ([s[0]] + r.0, r.1)
    else ([], s)
  }

  /** `\d{0,max}`, greedy. */
  function TakeDigits(s: seq<codepoint>, max: nat): (r: (seq<codepoint>, seq<codepoint>))
    ensures |r.0| + |r.1| == |s| && s == r.0 + r.1
    ensures forall i :: 0 <= i < |r.0| ==> IsDigit(r.0[i])
  {
    if s != [] && max > 0 && IsDigit(s[0]) then
      var r := TakeDigits(s[1..], max - 1);
      assert [s[0]] + (r.0 + r.1) == s;
      ([s[0]] + r.0, r.1)
    else ([], s)
  }

  /** `(-?\d{1,10})?` and the text behind it. */
  function TakeArgument(s: seq<codepoint>): (r: (Option<int>, seq<codepoint>))
    ensures |r.1| <= |s|
  {
    var negative := s != [] && s[0] == MINUS;
    var r := TakeDigits(if negative then s[1..] else s, 10);
    if r.0 == [] then (None, s) else (Some(if negative then -(DecimalValue(r.0) as int) else DecimalValue(r.0)), r.1)
  }

  function HexValue(c: codepoint): (d: nat)
    requires IsHex(c)
    ensures d < 16
  {
    if IsDigit(c) then c - 48 else if c >= 97 then c - 87 else c - 55
  }

  function SkipNewlines(s: seq<codepoint>): (r: seq<codepoint>)
    ensures |r| <= |s|
  {
    if s != [] && IsNewline(s[0]) then SkipNewlines(s[1..]) else s
  }

  /** The match at the front of `s`, and the text behind it. */
  function NextToken(s: seq<codepoint>): (r: (Token, seq<codepoint>))
    requires s != []
    ensures |r.1| < |s|
  {
    if s[0] == BACKSLASH && |s| > 1 && IsLetter(s[1]) then
      var (word, rest) := TakeLetters(s[1..], 32);
      assert word != [] by { assert word == [s[1]] + TakeLetters(s[1..][1..], 31).0; }
      var (arg, behind) := TakeArgument(rest);
      (Word(word, arg), if behind != [] && behind[0] == SPACE then behind[1..] else behind)
    else if s[0] == BACKSLASH && |s| > 3 && s[1] == APOSTROPHE && IsHex(s[2]) && IsHex(s[3]) then
      (Hex(16 * HexValue(s[2]) + HexValue(s[3])), s[4..])
    else if s[0] == BACKSLASH && |s| > 1 then (Symbol(s[1]), s[2..])
    else if s[0] == OPEN || s[0] == CLOSE then (Brace(s[0] == OPEN), s[1..])
    else if IsNewline(s[0]) then (Newlines, SkipNewlines(s[1..]))
    else (Text(s[0]), s[1..])
  }

  /** All matches, one behind the other. */
  function Tokens(s: seq<codepoint>): seq<Token>
    decreases |s|
  {
    if s == [] then [] else var (t, rest) := NextToken(s); [t] + Tokens(rest)
  }

  // ----- Tables

  function Codes(s: string): seq<codepoint> {
    seq(|s|, i requires 0 <= i < |s| => s[i] as int)
  }

  /** The control words that stand for characters; two of them carry an octal escape where a code point was meant. */
  function SpecialChars(word: seq<codepoint>): Option<seq<codepoint>> {
    if word == Codes("par") then Some([LF])
    else if word == Codes("sect") then Some([LF, LF])
    else if word == Codes("page") then Some([LF, LF])
    else if word == Codes("line") then Some([LF])
    else if word == Codes("tab") then Some([9])
    else if word == Codes("cell") then Some([9])
    else if word == Codes("emdash") then Some([0x2014])
    else if word == Codes("endash") then Some([0x2013])
    else if word == Codes("emspace") then Some([0x2003])
    else if word == Codes("enspace") then Some([0x2002])
    else if word == Codes("qmspace") then Some([0x2005])
    else if word == Codes("bullet") then Some([0x2022])
    else if word == Codes("lquote") then Some([0x2018])
    else if word == Codes("rquote") then Some([0x2019])
    else if word == Codes("ldblquote") then Some([0x81, 67])
    else if word == Codes("rdblquote") then Some([0x201D])
    else None
  }

  const UC: seq<codepoint> := [117, 99]
  const U: seq<codepoint> := [117]

  // ----- The state machine

  datatype RtfError = StackUnderflow | MissingNumber | BadCharacter

  datatype Group = Group(ucskip: int, ignorable: bool)

  datatype State = State(stack: seq<Group>, ucskip: int, ignorable: bool, curskip: int, out: seq<codepoint>) {
    function Emit(text: seq<codepoint>): State {
      this.(out := out + text)
    }
  }

  const START := State([], 1, false, 0, [])

  /** The character of `\uN`; `widest` is the largest code point that unichr accepts. */
  function UnicodeChar(n: int, widest: codepoint): Option<codepoint> {
    var c := if n < 0 then n + 0x10000 else n;
    if 0 <= c <= widest then Some(c) else None
  }

  /** One turn of the loop. */
  function Step(st: State, t: Token, destinations: set<seq<codepoint>>, widest: codepoint): Result<State, RtfError> {
    match t
    case Brace(open) =>
      var st := st.(curskip := 0);
      if open then Ok(st.(stack := st.stack + [Group(st.ucskip, st.ignorable)]))
      else if st.stack == [] then Err(StackUnderflow)
      else
        var top := st.stack[|st.stack| - 1];
        Ok(st.(stack := st.stack[..|st.stack| - 1], ucskip := top.ucskip, ignorable := top.ignorable))
    case Symbol(c) =>
      var st := st.(curskip := 0);
      if c == 126 then Ok(if st.ignorable then st else st.Emit([0xA0]))
      else if c == OPEN || c == CLOSE || c == BACKSLASH then Ok(if st.ignorable then st else st.Emit([c]))
      else if c == 42 then Ok(st.(ignorable := true))
      else Ok(st)
    case Word(word, arg) =>
      var st := st.(curskip := 0);
      if word in destinations then Ok(st.(ignorable := true))
      else if st.ignorable then Ok(st)
      else if SpecialChars(word).Some? then Ok(st.Emit(SpecialChars(word).value))
      else if word == UC then
        if arg.None? then Err(MissingNumber) else Ok(st.(ucskip := arg.value))
      else if word == U then
        if arg.None? then Err(MissingNumber)
        else
          (match UnicodeChar(arg.value, widest)
           case None => Err(BadCharacter)
           case Some(c) => Ok(st.Emit([c]).(curskip := st.ucskip)))
      else Ok(st)
    case Hex(code) =>
      if st.curskip > 0 then Ok(st.(curskip := st.curskip - 1))
      else if st.ignorable then Ok(st)
      else Ok(st.Emit([code]))
    case Text(c) =>
      if st.curskip > 0 then Ok(st.(curskip := st.curskip - 1))
      else Ok(if st.ignorable then st else st.Emit([c]))
    case Newlines => Ok(st)
  }

  function Run(st: State, tokens: seq<Token>, destinations: set<seq<codepoint>>, widest: codepoint)
    : Result<State, RtfError>
    decreases |tokens|
  {
    if tokens == [] then Ok(st)
    else
      match Step(st, tokens[0], destinations, widest)
      case Err(e) => Err(e)
      case Ok(st') => Run(st', tokens[1..], destinations, widest)
  }

  /** striprtf. */
  function Strip(text: seq<codepoint>, destinations: set<seq<codepoint>>, widest: codepoint)
    : Result<seq<codepoint>, RtfError>
  {
    match Run(START, Tokens(text), destinations, widest)
    case Err(e) => Err(e)
    case Ok(st) => Ok(st.out)
  }

  // ----- The loop

  lemma OneStep(st: State, text: seq<codepoint>, destinations: set<seq<codepoint>>, widest: codepoint)
    requires text != []
    ensures Run(st, Tokens(text), destinations, widest)
         == match Step(st, NextToken(text).0, destinations, widest)
            case Err(e) => Err(e)
            case Ok(st') => Run(st', Tokens(NextToken(text).1), destinations, widest)
  {
    hide NextToken, Step;
    var (t, rest) := NextToken(text);
    assert Tokens(text)[0] == t && Tokens(text)[1..] == Tokens(rest);
  }

  method StripRtf(text: seq<codepoint>, destinations: set<seq<codepoint>>, widest: codepoint)
      returns (r: Result<seq<codepoint>, RtfError>)
    ensures r == Strip(text, destinations, widest)
  {
    hide NextToken, SpecialChars;
    var stack: seq<Group>, out: seq<codepoint> := [], [];
    var ucskip, ignorable, curskip := 1, false, 0;
    var rest := text;
    while rest != []
      invariant Run(START, Tokens(text), destinations, widest)
             == Run(State(stack, ucskip, ignorable, curskip, out), Tokens(rest), destinations, widest)
      decreases |rest|
    {
      var (token, behind) := NextToken(rest);
      OneStep(State(stack, ucskip, ignorable, curskip, out), rest, destinations, widest);
      rest := behind;
      match token {
        case Brace(open) =>
          curskip := 0;
          if open {
            stack := stack + [Group(ucskip, ignorable)];
          } else {
            if stack == [] { return Err(StackUnderflow); }
            ucskip, ignorable := stack[|stack| - 1].ucskip, stack[|stack| - 1].ignorable;
            stack := stack[..|stack| - 1];
          }
        case Symbol(c) =>
          curskip := 0;
          if c == 126 {
            if !ignorable { out := out + [0xA0]; }
          } else if c == OPEN || c == CLOSE || c == BACKSLASH {
            if !ignorable { out := out + [c]; }
          } else if c == 42 {
            ignorable := true;
          }
        case Word(word, arg) =>
          curskip := 0;
          if word in destinations {
            ignorable := true;
          } else if ignorable {
          } else if SpecialChars(word).Some? {
            out := out + SpecialChars(word).value;
          } else if word == UC {
            if arg.None? { return Err(MissingNumber); }
            ucskip := arg.value;
          } else if word == U {
            if arg.None? { return Err(MissingNumber); }
            var c := UnicodeChar(arg.value, widest);
            if c.None? { return Err(BadCharacter); }
            out := out + [c.value];
            curskip := ucskip;
          }
        case Hex(code) =>
          if curskip > 0 {
            curskip := curskip - 1;
          } else if !ignorable {
            out := out + [code];
          }
        case Text(c) =>
          if curskip > 0 {
            curskip := curskip - 1;
          } else if !ignorable {
            out := out + [c];
          }
        case Newlines =>
      }
    }
    return Ok(out);
  }
}
