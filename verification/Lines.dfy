/** Lines of a byte stream: what an ideal reader of the whole stream would return. */
module Lines {
  import opened Common

  const NEWLINE: byte := 10

  /** The first line of `s`, newline included, cut to `n` bytes if `n` is not negative. */
  function LineOf(s: seq<byte>, n: int): (r: seq<byte>)
    ensures r <= s
    decreases |s|
  {
    if s == [] || n == 0 then []
    else if s[0] == NEWLINE then [NEWLINE]
    else [s[0]] + LineOf(s[1..], n - 1)
  }

  /** Every negative bound means "no bound". */
  lemma {:induction false} Unbounded(s: seq<byte>, n: int)
    requires n < 0
    ensures LineOf(s, n) == LineOf(s, -1)
    decreases |s|
  {
    if s != [] {
      Unbounded(s[1..], n - 1);
      Unbounded(s[1..], -2);
    }
  }

  predicate EndsLine(r: seq<byte>) {
    r != [] && r[|r| - 1] == NEWLINE
  }

  /** `r` is the longest prefix of `s` that has no newline before its last byte and no more than `n` bytes. */
  ghost predicate IsLine(s: seq<byte>, n: int, r: seq<byte>) {
    && r <= s
    && (forall i :: 0 <= i < |r| - 1 ==> r[i] != NEWLINE)
    && (n >= 0 ==> |r| <= n)
    && (EndsLine(r) || |r| == n || r == s)
  }

  lemma {:induction false} LineOfIsLine(s: seq<byte>, n: int)
    ensures IsLine(s, n, LineOf(s, n))
    decreases |s|
  {
    hide LineOf, IsLine, EndsLine;
    if s != [] && n != 0 && s[0] != NEWLINE {
      LineOfIsLine(s[1..], n - 1);
      LineStarts(s, n);
      assert s == [s[0]] + s[1..];
      IsLineCons(s[0], s[1..], n, LineOf(s[1..], n - 1));
    } else {
      ShortLine(s, n);
    }
  }

  lemma ShortLine(s: seq<byte>, n: int)
    requires s == [] || n == 0 || s[0] == NEWLINE
    ensures IsLine(s, n, LineOf(s, n))
  {
  }

  lemma IsLineCons(c: byte, s: seq<byte>, n: int, t: seq<byte>)
    requires c != NEWLINE && n != 0 && IsLine(s, n - 1, t)
    ensures IsLine([c] + s, n, [c] + t)
  {
  }

  lemma LineNotLonger(s: seq<byte>, n: int, r: seq<byte>, r': seq<byte>)
    requires IsLine(s, n, r) && IsLine(s, n, r')
    ensures |r'| <= |r|
  {
    assert 0 < |r| <= |r'| ==> r'[|r| - 1] == s[|r| - 1] == r[|r| - 1];
  }

  /** There is only one such line, so a reader that returns one returns what every other reader does. */
  lemma LineUnique(s: seq<byte>, n: int, r: seq<byte>, r': seq<byte>)
    requires IsLine(s, n, r) && IsLine(s, n, r')
    ensures r == r'
  {
    LineNotLonger(s, n, r, r');
    LineNotLonger(s, n, r', r);
    assert r == s[..|r|] == r';
  }

  /** A buffer without a complete line is the beginning of the line. */
  lemma {:induction false} LineSkip(b: seq<byte>, s: seq<byte>, n: int)
    requires LineOf(b, n) == b && !EndsLine(b)
    requires n < 0 || |b| <= n
    ensures LineOf(b + s, n) == b + LineOf(s, n - |b|)
    decreases |b|
  {
    hide LineOf;
    if b == [] {
      assert b + s == s && [] + LineOf(s, n) == LineOf(s, n);
    } else {
      WholeLine(b, n);
      LineCons(b, s, n);
      LineSkip(b[1..], s, n - 1);
      assert b == [b[0]] + b[1..];
    }
  }

  /** What is left of such a buffer after its first byte is one again. */
  lemma WholeLine(b: seq<byte>, n: int)
    requires b != [] && n != 0 && LineOf(b, n) == b && !EndsLine(b)
    ensures b[0] != NEWLINE && LineOf(b[1..], n - 1) == b[1..] && !EndsLine(b[1..])
  {
    assert b[0] == NEWLINE ==> |b| == 1;
    assert b == [b[0]] + b[1..];
  }

  lemma LineCons(b: seq<byte>, s: seq<byte>, n: int)
    requires b != [] && n != 0
    ensures LineOf(b + s, n) == if b[0] == NEWLINE then [NEWLINE] else [b[0]] + LineOf(b[1..] + s, n - 1)
  {
    assert (b + s)[0] == b[0] && (b + s)[1..] == b[1..] + s;
  }

  lemma EndsLineCons(c: byte, r: seq<byte>)
    requires c != NEWLINE
    ensures EndsLine([c] + r) <==> EndsLine(r)
  {
    assert r != [] ==> ([c] + r)[|r|] == r[|r| - 1];
  }

  /** A buffer that completes the line decides it. */
  lemma {:induction false} LineStop(b: seq<byte>, s: seq<byte>, n: int)
    requires EndsLine(LineOf(b, n)) || |LineOf(b, n)| == n
    ensures LineOf(b + s, n) == LineOf(b, n)
    decreases |b|
  {
    if b == [] {
      LineOfNothing(n);
    } else if n != 0 {
      hide LineOf, EndsLine;
      LineCons(b, s, n);
      LineStarts(b, n);
      if b[0] != NEWLINE {
        var r := LineOf(b[1..], n - 1);
        EndsLineCons(b[0], r);
        assert |[b[0]] + r| == 1 + |r|;
        LineStop(b[1..], s, n - 1);
      }
    }
  }

  lemma LineOfNothing(n: int)
    ensures LineOf([], n) == [] && !EndsLine([])
  {
  }

  lemma LineStarts(b: seq<byte>, n: int)
    requires b != [] && n != 0
    ensures LineOf(b, n) == if b[0] == NEWLINE then [NEWLINE] else [b[0]] + LineOf(b[1..], n - 1)
  {
  }

  /** `data.find(b'\n', 0, limit)`: the index of the first newline before `limit`, or -1. */
  function FindNewline(data: seq<byte>, limit: int): (k: int)
    ensures -1 <= k < |data|
    ensures k >= 0 ==> k < limit && data[k] == NEWLINE && forall i :: 0 <= i < k ==> data[i] != NEWLINE
    ensures k < 0 ==> forall i :: 0 <= i < |data| && i < limit ==> data[i] != NEWLINE
    decreases |data|
  {
    if data == [] || limit <= 0 then -1
    else if data[0] == NEWLINE then 0
    else
      var k := FindNewline(data[1..], limit - 1);
      assert forall i :: 0 < i < |data| ==> data[i] == data[1..][i - 1];
      if k < 0 then -1 else k + 1
  }

  /** The lines of the whole stream. */
  function SplitLines(s: seq<byte>): seq<seq<byte>>
    decreases |s|
  {
    if s == [] then []
    else
      var line := LineOf(s, -1);
      assert line != [];
      [line] + SplitLines(s[|line|..])
  }

  /** The lines of a stream until, after `total` bytes before it, `sizehint` bytes are reached; 0 is no limit. */
  function LinesUpTo(s: seq<byte>, sizehint: int, total: nat): seq<seq<byte>>
    decreases |s|
  {
    if s == [] then []
    else
      var line := LineOf(s, -1);
      [line]
      + if sizehint != 0 && total + |line| >= sizehint then [] else LinesUpTo(s[|line|..], sizehint, total + |line|)
  }

  function Join(parts: seq<seq<byte>>): seq<byte> {
    if parts == [] then [] else parts[0] + Join(parts[1..])
  }

  lemma {:induction false} JoinConcat(a: seq<seq<byte>>, b: seq<seq<byte>>)
    ensures Join(a + b) == Join(a) + Join(b)
  {
    if a == [] {
      assert a + b == b;
    } else {
      assert (a + b)[1..] == a[1..] + b;
      JoinConcat(a[1..], b);
    }
  }

  /** Nothing is lost or reordered by cutting a stream into lines. */
  lemma {:induction false} SplitLinesJoin(s: seq<byte>)
    ensures Join(SplitLines(s)) == s
    decreases |s|
  {
    if s != [] {
      var line := LineOf(s, -1);
      SplitLinesJoin(s[|line|..]);
    }
  }
}
