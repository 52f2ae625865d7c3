/** Properties of striprtf: escaped text, groups, ignorable groups and the group stack. */
module RtfProofs {
  import opened Common
  import opened Decimals
  import opened RtfText

  // ----- Escaped text

  /** The signed 16-bit number that `\u` takes. */
  function Signed(c: codepoint): seq<codepoint>
    requires c <= 0xFFFF
  {
    if c >= 0x8000 then [MINUS] + Decimal(0x10000 - c) else Decimal(c)
  }

  function EscapeChar(c: codepoint): seq<codepoint>
    requires c <= 0xFFFF
  {
    if c == BACKSLASH || c == OPEN || c == CLOSE then [BACKSLASH, c]
    else if c > 127 then [BACKSLASH] + (U + (Signed(c) + [63]))
    else [c]
  }

  ghost predicate Bmp(s: seq<codepoint>) {
    forall i :: 0 <= i < |s| ==> s[i] <= 0xFFFF
  }

  function Escape(s: seq<codepoint>): seq<codepoint>
    requires forall i :: 0 <= i < |s| ==> s[i] <= 0xFFFF
  {
    if s == [] then [] else EscapeChar(s[0]) + Escape(s[1..])
  }

  function WithoutNewlines(s: seq<codepoint>): (r: seq<codepoint>)
    ensures |r| <= |s|
    ensures r == s <==> forall i :: 0 <= i < |s| ==> !IsNewline(s[i])
  {
    if s == [] then []
    else
      var r := WithoutNewlines(s[1..]);
      assert s == [s[0]] + s[1..];
      if IsNewline(s[0]) then r else [s[0]] + r
  }

  lemma DecimalLength(n: nat)
    requires n < 100000
    ensures |Decimal(n)| <= 5
  {
    assert |Decimal(n / 10000)| == 1;
    assert n / 1000 / 10 == n / 10000 && |Decimal(n / 1000)| <= 2;
    assert n / 100 / 10 == n / 1000 && |Decimal(n / 100)| <= 3;
    assert n / 10 / 10 == n / 100 && |Decimal(n / 10)| <= 4;
  }

  lemma {:induction false} TakeAllDigits(digits: seq<codepoint>, t: seq<codepoint>, max: nat)
    requires |digits| <= max && forall i :: 0 <= i < |digits| ==> IsDigit(digits[i])
    requires t != [] && !IsDigit(t[0])
    ensures TakeDigits(digits + t, max) == (digits, t)
  {
    if digits == [] {
      assert digits + t == t;
    } else {
      assert IsDigit(digits[0]);
      assert (digits + t)[0] == digits[0] && (digits + t)[1..] == digits[1..] + t;
      TakeAllDigits(digits[1..], t, max - 1);
      assert [digits[0]] + digits[1..] == digits;
    }
  }

  /** The argument of an escape, as written and as read. */
  lemma ArgumentRead(c: codepoint, t: seq<codepoint>)
    requires c <= 0xFFFF && t != [] && !IsDigit(t[0])
    ensures TakeArgument(Signed(c) + t) == (Some(if c >= 0x8000 then c - 0x10000 else c), t)
  {
    var n := if c >= 0x8000 then 0x10000 - c else c;
    DecimalLength(n);
    DecimalRoundTrip(n);
    hide Decimal, DecimalValue, TakeDigits;
    var digits: seq<codepoint> := Decimal(n);
    TakeAllDigits(digits, t, 10);
    assert IsDigit(digits[0]);
    if c >= 0x8000 {
      NegativeRead(digits, t);
    } else {
      PositiveRead(digits, t);
    }
  }

  lemma PositiveRead(digits: seq<codepoint>, t: seq<codepoint>)
    requires AllDigits(digits) && TakeDigits(digits + t, 10) == (digits, t)
    ensures TakeArgument(digits + t) == (Some(DecimalValue(digits)), t)
  {
    hide DecimalValue, TakeDigits;
    assert IsDigit(digits[0]) && (digits + t)[0] == digits[0];
  }

  lemma NegativeRead(digits: seq<codepoint>, t: seq<codepoint>)
    requires AllDigits(digits) && TakeDigits(digits + t, 10) == (digits, t)
    ensures TakeArgument([MINUS] + digits + t) == (Some(-(DecimalValue(digits) as int)), t)
  {
    hide DecimalValue, TakeDigits;
    assert ([MINUS] + digits + t)[0] == MINUS && ([MINUS] + digits + t)[1..] == digits + t;
  }

  lemma SignedStart(c: codepoint)
    requires c <= 0xFFFF
    ensures Signed(c) != [] && !IsLetter(Signed(c)[0])
  {
    if c < 0x8000 { assert IsDigit(Decimal(c)[0]); }
  }

  lemma UnicodeToken(c: codepoint, t: seq<codepoint>)
    requires c <= 0xFFFF
    ensures var s := [BACKSLASH] + (U + (Signed(c) + [63])) + t;
            NextToken(s) == (Word(U, Some(if c >= 0x8000 then c - 0x10000 else c)), [63] + t)
  {
    hide TakeArgument, Signed;
    var arg := Signed(c) + ([63] + t);
    var s := [BACKSLASH] + (U + (Signed(c) + [63])) + t;
    SignedStart(c);
    assert s[0] == BACKSLASH && s[1] == 117 && s[1..] == U + arg;
    assert (U + arg)[1..] == arg && arg[0] == Signed(c)[0];
    assert TakeLetters(arg, 31) == ([], arg);
    assert TakeLetters(U + arg, 32) == (U, arg) by { assert [117] + [] == U; }
    ArgumentRead(c, [63] + t);
  }

  /** What the machine makes of one escaped character, whatever follows. */
  lemma CharStrips(st: State, c: codepoint, t: seq<codepoint>, destinations: set<seq<codepoint>>, widest: codepoint)
    requires c <= 0xFFFF <= widest && U !in destinations
    requires st.ucskip == 1 && st.curskip == 0 && !st.ignorable
    ensures Run(st, Tokens(EscapeChar(c) + t), destinations, widest)
         == Run(if IsNewline(c) then st else st.Emit([c]), Tokens(t), destinations, widest)
  {
    hide Run, Tokens, NextToken, SpecialChars, Signed;
    var s := EscapeChar(c) + t;
    OneStep(st, s, destinations, widest);
    if c > 127 {
      UnicodeToken(c, t);
      NotSpecial();
      QuestionMark(st.Emit([c]).(curskip := 1), t, destinations, widest);
      assert st.Emit([c]).(curskip := 1).(curskip := 0) == st.Emit([c]);
    } else {
      AsciiToken(c, t);
      if IsNewline(c) { NewlinesSkipped(st, t, destinations, widest); }
    }
  }

  /** The match at the front of an escaped ASCII character. */
  lemma AsciiToken(c: codepoint, t: seq<codepoint>)
    requires c <= 127
    ensures NextToken(EscapeChar(c) + t)
         == if c == BACKSLASH || c == OPEN || c == CLOSE then (Symbol(c), t)
            else if IsNewline(c) then (Newlines, SkipNewlines(t))
            else (Text(c), t)
  {
    var s := EscapeChar(c) + t;
    if c == BACKSLASH || c == OPEN || c == CLOSE {
      assert s[0] == BACKSLASH && s[1] == c && s[2..] == t;
    } else {
      assert s[0] == c && s[1..] == t;
    }
  }

  lemma NotSpecial()
    ensures SpecialChars(U) == None
  {
  }

  lemma QuestionMark(st: State, t: seq<codepoint>, destinations: set<seq<codepoint>>, widest: codepoint)
    requires st.curskip == 1
    ensures Run(st, Tokens([63] + t), destinations, widest) == Run(st.(curskip := 0), Tokens(t), destinations, widest)
  {
    hide Tokens, Run;
    OneStep(st, [63] + t, destinations, widest);
    assert ([63] + t)[0] == 63 && ([63] + t)[1..] == t;
  }

  lemma NewlinesSkipped(st: State, t: seq<codepoint>, destinations: set<seq<codepoint>>, widest: codepoint)
    ensures Run(st, Tokens(SkipNewlines(t)), destinations, widest) == Run(st, Tokens(t), destinations, widest)
  {
    hide Tokens, Run;
    if t != [] && IsNewline(t[0]) { OneStep(st, t, destinations, widest); }
  }

  /** Escaped text is transparent: in front of any text it adds itself, without its newlines, to the output. */
  lemma {:induction false} EscapedIsTransparent(st: State, s: seq<codepoint>, t: seq<codepoint>,
                                                destinations: set<seq<codepoint>>, widest: codepoint)
    requires Bmp(s) && 0xFFFF <= widest && U !in destinations
    requires st.ucskip == 1 && st.curskip == 0 && !st.ignorable
    ensures Run(st, Tokens(Escape(s) + t), destinations, widest)
         == Run(st.Emit(WithoutNewlines(s)), Tokens(t), destinations, widest)
    decreases |s|
  {
    hide Run, Tokens, EscapeChar;
    if s == [] {
      assert Escape(s) + t == t && st.out + [] == st.out;
    } else {
      var rest := Escape(s[1..]) + t;
      assert Escape(s) + t == EscapeChar(s[0]) + rest;
      CharStrips(st, s[0], rest, destinations, widest);
      var st' := if IsNewline(s[0]) then st else st.Emit([s[0]]);
      EscapedIsTransparent(st', s[1..], t, destinations, widest);
      assert st.out + [s[0]] + WithoutNewlines(s[1..]) == st.out + ([s[0]] + WithoutNewlines(s[1..]));
    }
  }

  /** Stripping escaped text of the basic plane gives the text without its newlines, so it gives the text itself
      exactly if there are none. */
  lemma EscapeRoundTrip(s: seq<codepoint>, destinations: set<seq<codepoint>>, widest: codepoint)
    requires Bmp(s) && 0xFFFF <= widest && U !in destinations
    ensures Strip(Escape(s), destinations, widest) == Ok(WithoutNewlines(s))
    ensures Strip(Escape(s), destinations, widest) == Ok(s) <==> forall i :: 0 <= i < |s| ==> !IsNewline(s[i])
  {
    EscapedIsTransparent(START, s, [], destinations, widest);
    assert Escape(s) + [] == Escape(s) && [] + WithoutNewlines(s) == WithoutNewlines(s);
  }

  // ----- Groups

  /** The braces among the tokens. */
  function Braces(tokens: seq<Token>): seq<bool> {
    if tokens == [] then [] else (if tokens[0].Brace? then [tokens[0].open] else []) + Braces(tokens[1..])
  }

  /** Starting `depth` groups deep, no closing brace is without its opening one. */
  ghost predicate NeverBelow(tokens: seq<Token>, depth: nat) {
    tokens != [] ==>
      if tokens[0].Brace? then
        if tokens[0].open then NeverBelow(tokens[1..], depth + 1) else depth > 0 && NeverBelow(tokens[1..], depth - 1)
      else NeverBelow(tokens[1..], depth)
  }

  ghost function DepthAfter(tokens: seq<Token>, depth: int): int {
    if tokens == [] then depth
    else DepthAfter(tokens[1..], if tokens[0].Brace? then (if tokens[0].open then depth + 1 else depth - 1) else depth)
  }

  ghost function NewDepth(t: Token, depth: int): int {
    if t.Brace? then (if t.open then depth + 1 else depth - 1) else depth
  }

  /** `st` is `depth` groups inside a stack `base`. */
  ghost predicate Inside(st: State, base: seq<Group>, depth: nat) {
    |st.stack| == |base| + depth && st.stack[..|base|] == base
  }

  lemma StepDepth(
    st: State, t: Token, base: seq<Group>, depth: nat, destinations: set<seq<codepoint>>, widest: codepoint)
    requires Inside(st, base, depth) && NewDepth(t, depth) >= 0
    requires Step(st, t, destinations, widest).Ok?
    ensures Inside(Step(st, t, destinations, widest).value, base, NewDepth(t, depth))
  {
    hide SpecialChars;
  }

  /** Inside a group the stack below it stays as it is, and its height counts the open groups. */
  lemma {:induction false} StackDepth(st: State, tokens: seq<Token>, base: seq<Group>, depth: nat,
                                      destinations: set<seq<codepoint>>, widest: codepoint)
    requires Inside(st, base, depth) && NeverBelow(tokens, depth)
    requires Run(st, tokens, destinations, widest).Ok?
    ensures DepthAfter(tokens, depth) >= 0
    ensures Inside(Run(st, tokens, destinations, widest).value, base, DepthAfter(tokens, depth))
    decreases |tokens|
  {
    hide Step, Inside;
    if tokens != [] {
      StepDepth(st, tokens[0], base, depth, destinations, widest);
      var st' := Step(st, tokens[0], destinations, widest).value;
      StackDepth(st', tokens[1..], base, NewDepth(tokens[0], depth), destinations, widest);
    }
  }

  lemma {:induction false} RunConcat(
    st: State, a: seq<Token>, b: seq<Token>, destinations: set<seq<codepoint>>, widest: codepoint)
    ensures Run(st, a + b, destinations, widest)
         == match Run(st, a, destinations, widest)
            case Err(e) => Err(e)
            case Ok(st') => Run(st', b, destinations, widest)
    decreases |a|
  {
    hide Step;
    if a == [] {
      assert a + b == b;
    } else {
      assert (a + b)[0] == a[0] && (a + b)[1..] == a[1..] + b;
      var r := Step(st, a[0], destinations, widest);
      if r.Ok? { RunConcat(r.value, a[1..], b, destinations, widest); }
    }
  }

  /** A balanced group, whatever is in it, leaves the stack, the number of fallback characters and the ignorable
      flag as they were. */
  lemma BalancedGroupRestores(st: State, tokens: seq<Token>, destinations: set<seq<codepoint>>, widest: codepoint)
    requires NeverBelow(tokens, 0) && DepthAfter(tokens, 0) == 0
    requires Run(st, [Brace(true)] + tokens + [Brace(false)], destinations, widest).Ok?
    ensures var st' := Run(st, [Brace(true)] + tokens + [Brace(false)], destinations, widest).value;
            st'.stack == st.stack && st'.ucskip == st.ucskip && st'.ignorable == st.ignorable && st'.curskip == 0
  {
    var base := st.stack + [Group(st.ucskip, st.ignorable)];
    var st1 := st.(curskip := 0, stack := base);
    assert Run(st, [Brace(true)], destinations, widest) == Ok(st1) by { assert [Brace(true)][1..] == []; }
    RunConcat(st, [Brace(true)], tokens, destinations, widest);
    RunConcat(st, [Brace(true)] + tokens, [Brace(false)], destinations, widest);
    var st2 := Run(st1, tokens, destinations, widest).value;
    StackDepth(st1, tokens, base, 0, destinations, widest);
    assert st2.stack == base;
    assert base[..|base| - 1] == st.stack;
    assert Run(st2, [Brace(false)], destinations, widest)
        == Ok(st2.(curskip := 0, stack := st.stack, ucskip := st.ucskip, ignorable := st.ignorable)) by {
      assert [Brace(false)][1..] == [];
    }
  }

  // ----- Ignorable groups

  /** `st` is inside an ignorable group: so are all the groups that were opened in it. */
  ghost predicate Silent(st: State, depth: nat) {
    st.ignorable && |st.stack| >= depth && forall i :: |st.stack| - depth <= i < |st.stack| ==> st.stack[i].ignorable
  }

  lemma StepSilent(st: State, t: Token, depth: nat, destinations: set<seq<codepoint>>, widest: codepoint)
    requires Silent(st, depth) && NewDepth(t, depth) >= 0 && Step(st, t, destinations, widest).Ok?
    ensures var st' := Step(st, t, destinations, widest).value; Silent(st', NewDepth(t, depth)) && st'.out == st.out
  {
    hide SpecialChars;
  }

  /** Until an ignorable group is closed, nothing is output. */
  lemma {:induction false} IgnorableIsSilent(st: State, tokens: seq<Token>, depth: nat,
                                             destinations: set<seq<codepoint>>, widest: codepoint)
    requires Silent(st, depth) && NeverBelow(tokens, depth) && Run(st, tokens, destinations, widest).Ok?
    ensures Run(st, tokens, destinations, widest).value.out == st.out
    decreases |tokens|
  {
    hide Step, Silent;
    if tokens != [] {
      StepSilent(st, tokens[0], depth, destinations, widest);
      IgnorableIsSilent(Step(st, tokens[0], destinations, widest).value, tokens[1..], NewDepth(tokens[0], depth),
                        destinations, widest);
    }
  }

  // ----- The stack never underflows

  lemma StepUnderflow(st: State, t: Token, destinations: set<seq<codepoint>>, widest: codepoint)
    ensures Step(st, t, destinations, widest) == Err(StackUnderflow) <==> NewDepth(t, |st.stack|) < 0
    ensures Step(st, t, destinations, widest).Ok? ==>
              |Step(st, t, destinations, widest).value.stack| == NewDepth(t, |st.stack|)
  {
    hide SpecialChars;
  }

  /** The stack underflows only if a closing brace has no opening one, and then the run fails. */
  lemma {:induction false} UnderflowExactly(
    st: State, tokens: seq<Token>, destinations: set<seq<codepoint>>, widest: codepoint)
    ensures NeverBelow(tokens, |st.stack|) ==> Run(st, tokens, destinations, widest) != Err(StackUnderflow)
    ensures !NeverBelow(tokens, |st.stack|) ==> Run(st, tokens, destinations, widest).Err?
    decreases |tokens|
  {
    hide Step;
    if tokens != [] {
      StepUnderflow(st, tokens[0], destinations, widest);
      var r := Step(st, tokens[0], destinations, widest);
      if r.Ok? { UnderflowExactly(r.value, tokens[1..], destinations, widest); }
    }
  }

  // ----- Braces in the text

  /** The unescaped braces of a text: a backslash hides the character behind it. */
  function TextBraces(s: seq<codepoint>): seq<bool>
    decreases |s|
  {
    if s == [] then []
    else if s[0] == BACKSLASH && |s| > 1 then TextBraces(s[2..])
    else (if s[0] == OPEN || s[0] == CLOSE then [s[0] == OPEN] else []) + TextBraces(s[1..])
  }

  predicate Harmless(c: int) {
    c != BACKSLASH && c != OPEN && c != CLOSE
  }

  lemma {:induction false} SkipHarmless(a: seq<codepoint>, t: seq<codepoint>)
    requires forall i :: 0 <= i < |a| ==> Harmless(a[i])
    ensures TextBraces(a + t) == TextBraces(t)
  {
    if a == [] {
      assert a + t == t;
    } else {
      assert Harmless(a[0]);
      assert (a + t)[0] == a[0] && (a + t)[1..] == a[1..] + t;
      SkipHarmless(a[1..], t);
    }
  }

  lemma {:induction false} NewlinesHarmless(s: seq<codepoint>)
    ensures TextBraces(SkipNewlines(s)) == TextBraces(s)
  {
    if s != [] && IsNewline(s[0]) { NewlinesHarmless(s[1..]); }
  }

  lemma ArgumentHarmless(s: seq<codepoint>)
    ensures TextBraces(TakeArgument(s).1) == TextBraces(s)
  {
    var negative := s != [] && s[0] == MINUS;
    var r := TakeDigits(if negative then s[1..] else s, 10);
    forall i | 0 <= i < |r.0| ensures Harmless(r.0[i]) { assert IsDigit(r.0[i]); }
    SkipHarmless(r.0, r.1);
  }

  lemma WordHarmless(s: seq<codepoint>)
    requires |s| > 1 && s[0] == BACKSLASH && IsLetter(s[1])
    ensures TextBraces(NextToken(s).1) == TextBraces(s)
  {
    hide TakeArgument;
    var (word, rest) := TakeLetters(s[1..], 32);
    assert word[0] == s[1] by { assert word == [s[1]] + TakeLetters(s[1..][1..], 31).0; }
    assert s[2..] == word[1..] + rest by { assert s[1..] == word + rest; }
    forall i | 0 <= i < |word[1..]| ensures Harmless(word[1..][i]) { assert IsLetter(word[i + 1]); }
    SkipHarmless(word[1..], rest);
    ArgumentHarmless(rest);
  }

  lemma TokenBraces(s: seq<codepoint>)
    requires s != []
    ensures TextBraces(s) == Braces([NextToken(s).0]) + TextBraces(NextToken(s).1)
  {
    hide TakeLetters, TakeArgument;
    var t := NextToken(s).0;
    assert [t][1..] == [] && Braces([t]) == if t.Brace? then [t.open] else [];
    if s[0] == BACKSLASH && |s| > 1 && IsLetter(s[1]) {
      WordHarmless(s);
    } else if t.Hex? {
      assert s[2..] == [s[2], s[3]] + s[4..];
      SkipHarmless([s[2], s[3]], s[4..]);
    } else if t.Newlines? {
      NewlinesHarmless(s[1..]);
    }
  }

  lemma {:induction false} BracesOfText(s: seq<codepoint>)
    ensures Braces(Tokens(s)) == TextBraces(s)
    decreases |s|
  {
    if s != [] {
      hide NextToken, TextBraces;
      var (t, rest) := NextToken(s);
      TokenBraces(s);
      BracesOfText(rest);
      assert ([t] + Tokens(rest))[1..] == Tokens(rest) && [t][1..] == [];
    }
  }

  /** Every prefix has at least as many opening as closing braces, counted from `depth`. */
  ghost predicate PrefixesOpen(braces: seq<bool>, depth: nat) {
    forall n :: 0 <= n <= |braces| ==> depth + Balance(braces[..n]) >= 0
  }

  ghost function Balance(braces: seq<bool>): int {
    if braces == [] then 0 else (if braces[|braces| - 1] then 1 else -1) + Balance(braces[..|braces| - 1])
  }

  lemma {:induction false} BalanceCons(b: bool, braces: seq<bool>)
    ensures Balance([b] + braces) == (if b then 1 else -1) + Balance(braces)
  {
    if braces == [] {
      assert [b] + braces == [b] && [b][..0] == [];
    } else {
      var n := |braces| - 1;
      assert ([b] + braces)[..n + 1] == [b] + braces[..n];
      BalanceCons(b, braces[..n]);
    }
  }

  lemma PrefixesStep(b: bool, braces: seq<bool>, depth: nat)
    ensures PrefixesOpen([b] + braces, depth)
        <==> (b || depth > 0) && PrefixesOpen(braces, if b then depth + 1 else depth - 1)
  {
    var all := [b] + braces;
    var inner := if b then depth + 1 else if depth > 0 then depth - 1 else 0;
    assert all[..1] == [b] + braces[..0];
    BalanceCons(b, braces[..0]);
    assert PrefixesOpen(all, depth) ==> depth + Balance(all[..1]) >= 0;
    if PrefixesOpen(all, depth) {
      forall n | 0 <= n <= |braces| ensures inner + Balance(braces[..n]) >= 0 {
        BalanceCons(b, braces[..n]);
        assert all[..n + 1] == [b] + braces[..n];
      }
    }
    if (b || depth > 0) && PrefixesOpen(braces, inner) {
      forall n | 0 <= n <= |all| ensures depth + Balance(all[..n]) >= 0 {
        if n > 0 {
          BalanceCons(b, braces[..n - 1]);
          assert all[..n] == [b] + braces[..n - 1];
        }
      }
    }
  }

  lemma NothingOpen(depth: nat)
    ensures PrefixesOpen([], depth)
  {
    assert Balance([]) == 0;
  }

  lemma {:induction false} NeverBelowIsPrefixes(tokens: seq<Token>, depth: nat)
    ensures NeverBelow(tokens, depth) <==> PrefixesOpen(Braces(tokens), depth)
    decreases |tokens|
  {
    if tokens == [] {
      NothingOpen(depth);
    } else if tokens[0].Brace? {
      hide PrefixesOpen;
      PrefixesStep(tokens[0].open, Braces(tokens[1..]), depth);
      if tokens[0].open || depth > 0 {
        NeverBelowIsPrefixes(tokens[1..], if tokens[0].open then depth + 1 else depth - 1);
      }
    } else {
      NeverBelowIsPrefixes(tokens[1..], depth);
      assert [] + Braces(tokens[1..]) == Braces(tokens[1..]);
    }
  }

  /** The stack never underflows on a text whose prefixes all have at least as many unescaped opening braces as
      closing ones; on any other text striprtf fails. */
  lemma TextUnderflow(s: seq<codepoint>, destinations: set<seq<codepoint>>, widest: codepoint)
    ensures PrefixesOpen(TextBraces(s), 0) ==> Strip(s, destinations, widest) != Err(StackUnderflow)
    ensures !PrefixesOpen(TextBraces(s), 0) ==> Strip(s, destinations, widest).Err?
  {
    UnderflowExactly(START, Tokens(s), destinations, widest);
    NeverBelowIsPrefixes(Tokens(s), 0);
    BracesOfText(s);
  }
}
