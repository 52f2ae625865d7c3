/** How a command is framed on the wire: 8-bit arguments as literals, the others as they are. */
module ImapFraming {
  import opened Common
  import opened ImapLexing
  import opened ImapPrinting

  type Arg = seq<byte>

  const CRLF: seq<byte> := [13, 10]

  predicate Is8Bit(s: Arg) {
    exists i :: 0 <= i < |s| && s[i] > 127
  }

  /** `b' '.join(items)`. */
  function JoinSpaced(items: seq<Arg>): seq<byte> {
    if items == [] then []
    else if |items| == 1 then items[0]
    else items[0] + [SPACE] + JoinSpaced(items[1..])
  }

  /** What _send_literal announces, and the literal itself. */
  function Announced(item: Arg): seq<byte> {
    Marker(item) + CRLF
  }

  /** The bytes that the loop of _raw_command sends for `items`, with `line` still to be sent. */
  function Frame(items: seq<Arg>, line: seq<Arg>): seq<byte>
    decreases |items|
  {
    if items == [] then JoinSpaced(line) + CRLF
    else if Is8Bit(items[0]) then
      JoinSpaced(line) + [SPACE] + Announced(items[0]) + items[0] + (if |items| > 1 then [SPACE] else [])
      + Frame(items[1..], [])
    else Frame(items[1..], line + [items[0]])
  }

  // ----- The loop

  /** The server's side of the connection: what it was sent, and whether it lets the next literal through. */
  class Connection {
    var sent: seq<byte>

    constructor ()
      ensures sent == []
    {
      sent := [];
    }

    method Send(data: seq<byte>)
      modifies this
      ensures sent == old(sent) + data
    {
      sent := sent + data;
    }

    /** Waits for a continuation; the server may end the command instead. */
    method AwaitContinuation() returns (ok: bool)
    {
      ok := *;
    }
  }

  /** _send_literal: the literal goes out only after a continuation. */
  method SendLiteral(conn: Connection, item: Arg) returns (ok: bool)
    modifies conn
    ensures conn.sent == old(conn.sent) + [SPACE] + Announced(item) + if ok then item else []
  {
    conn.Send([SPACE] + Announced(item));
    ok := conn.AwaitContinuation();
    assert conn.sent == old(conn.sent) + [SPACE] + Announced(item);
    if ok {
      conn.Send(item);
    }
  }

  /** _raw_command up to the end of the command line: everything is sent, or the command ends in front of a literal. */
  method RawCommand(conn: Connection, items: seq<Arg>) returns (ok: bool, ghost refused: nat)
    modifies conn
    ensures ok ==> conn.sent == old(conn.sent) + Frame(items, [])
    ensures !ok ==> refused < |items| && Is8Bit(items[refused])
    ensures !ok ==> exists rest :: old(conn.sent) + Frame(items, []) == conn.sent + (items[refused] + rest)
  {
    hide Frame, JoinSpaced, Announced, Is8Bit;
    FrameNoMore([]);
    var line: seq<Arg> := [];
    ghost var whole := conn.sent + Frame(items, []);
    refused := 0;
    assert items[0..] == items;
    for i := 0 to |items|
      invariant conn.sent + Frame(items[i..], line) == whole
    {
      FrameStep(items, i, line);
      var item := items[i];
      if Is8Bit(item) {
        ghost var before := conn.sent;
        if line != [] {
          conn.Send(JoinSpaced(line));
        }
        var sent := SendLiteral(conn, item);
        ghost var space := if i + 1 < |items| then [SPACE] else [];
        LiteralStep(before, JoinSpaced(line), item, space, Frame(items[i + 1..], []), whole);
        assert before + JoinSpaced(line) == if line != [] then before + JoinSpaced(line) else before;
        line := [];
        if !sent {
          refused := i;
          return false, i;
        }
        if i + 1 < |items| {
          conn.Send([SPACE]);
        }
      } else {
        line := line + [item];
      }
    }
    assert items[|items|..] == [];
    FrameNoMore(line);
    ghost var before := conn.sent;
    if line != [] {
      conn.Send(JoinSpaced(line));
    }
    conn.Send(CRLF);
    assert conn.sent == before + (JoinSpaced(line) + CRLF);
    return true, 0;
  }

  lemma FrameNoMore(line: seq<Arg>)
    ensures Frame([], line) == JoinSpaced(line) + CRLF
    ensures JoinSpaced([]) == [] && [] + CRLF == CRLF
  {
  }

  lemma FrameStep(items: seq<Arg>, i: nat, line: seq<Arg>)
    requires i < |items|
    ensures Frame(items[i..], line)
         == if Is8Bit(items[i]) then
              JoinSpaced(line) + [SPACE] + Announced(items[i]) + items[i] + (if i + 1 < |items| then [SPACE] else [])
              + Frame(items[i + 1..], [])
            else Frame(items[i + 1..], line + [items[i]])
  {
    assert items[i..][0] == items[i] && items[i..][1..] == items[i + 1..];
  }

  lemma LiteralStep(before: seq<byte>, line: seq<byte>, item: Arg, space: seq<byte>, rest: seq<byte>, whole: seq<byte>)
    requires before + (line + [SPACE] + Announced(item) + item + space + rest) == whole
    ensures before + line + [SPACE] + Announced(item) + (item + (space + rest)) == whole
    ensures before + line + [SPACE] + Announced(item) + item + space + rest == whole
  {
    hide Announced;
  }

  // ----- The command line on the wire

  /** An argument as it stands on the wire. */
  function OnWire(item: Arg): seq<byte> {
    if Is8Bit(item) then Announced(item) + item else item
  }

  /** The command line of section 9 of RFC 3501: arguments separated by single spaces. */
  function Canonical(items: seq<Arg>): seq<byte> {
    if items == [] then CRLF else OnWire(items[0]) + CanonicalRest(items[1..])
  }

  function CanonicalRest(items: seq<Arg>): seq<byte> {
    if items == [] then CRLF else [SPACE] + OnWire(items[0]) + CanonicalRest(items[1..])
  }

  /** The arguments behind another one; between two literals there are two spaces. */
  function SpacedRest(items: seq<Arg>, afterLiteral: bool): seq<byte>
    decreases |items|
  {
    if items == [] then CRLF
    else
      (if afterLiteral && Is8Bit(items[0]) then [SPACE, SPACE] else [SPACE])
      + OnWire(items[0]) + SpacedRest(items[1..], Is8Bit(items[0]))
  }

  lemma {:induction false} JoinSnoc(line: seq<Arg>, item: Arg)
    requires line != []
    ensures JoinSpaced(line + [item]) == JoinSpaced(line) + [SPACE] + item
  {
    if |line| == 1 {
      assert (line + [item])[1..] == [item];
    } else {
      assert (line + [item])[1..] == line[1..] + [item];
      JoinSnoc(line[1..], item);
    }
  }

  /** What is framed behind a line that is still to be sent, and behind a literal. */
  lemma {:induction false} FrameIsSpaced(items: seq<Arg>, line: seq<Arg>)
    requires line != []
    ensures Frame(items, line) == JoinSpaced(line) + SpacedRest(items, false)
    decreases |items|, 1
  {
    hide *;
    if items == [] {
      SpacedNothing(line);
    } else if Is8Bit(items[0]) {
      AfterLiteral(items[1..]);
      FrameLiteral(items, line);
      SpacedStep(items, false);
      var space := if |items| > 1 then [SPACE] else [];
      Regroup(JoinSpaced(line), Announced(items[0]), items[0], space, Frame(items[1..], []));
    } else {
      FrameIsSpaced(items[1..], line + [items[0]]);
      FramePlain(items, line);
      SpacedStep(items, false);
      JoinSnoc(line, items[0]);
      assert JoinSpaced(line) + [SPACE] + items[0] + SpacedRest(items[1..], false)
          == JoinSpaced(line) + ([SPACE] + items[0] + SpacedRest(items[1..], false));
    }
  }

  lemma SpacedNothing(line: seq<Arg>)
    requires line != []
    ensures Frame([], line) == JoinSpaced(line) + SpacedRest([], false)
  {
  }

  lemma Regroup(line: seq<byte>, announced: seq<byte>, item: Arg, space: seq<byte>, rest: seq<byte>)
    ensures line + [SPACE] + announced + item + space + rest
         == line + ([SPACE] + (announced + item) + (space + rest))
  {
  }

  lemma FramePlain(items: seq<Arg>, line: seq<Arg>)
    requires items != [] && !Is8Bit(items[0])
    ensures Frame(items, line) == Frame(items[1..], line + [items[0]])
  {
  }

  lemma FrameLiteral(items: seq<Arg>, line: seq<Arg>)
    requires items != [] && Is8Bit(items[0])
    ensures Frame(items, line)
         == JoinSpaced(line) + [SPACE] + Announced(items[0]) + items[0] + (if |items| > 1 then [SPACE] else [])
            + Frame(items[1..], [])
  {
    hide Is8Bit, Announced, JoinSpaced;
  }

  lemma SpacedStep(items: seq<Arg>, afterLiteral: bool)
    requires items != []
    ensures SpacedRest(items, afterLiteral)
         == (if afterLiteral && Is8Bit(items[0]) then [SPACE, SPACE] else [SPACE])
            + OnWire(items[0]) + SpacedRest(items[1..], Is8Bit(items[0]))
    ensures OnWire(items[0]) == if Is8Bit(items[0]) then Announced(items[0]) + items[0] else items[0]
  {
    hide Is8Bit, Announced;
  }

  lemma {:induction false} AfterLiteral(items: seq<Arg>)
    ensures (if items == [] then [] else [SPACE]) + Frame(items, []) == SpacedRest(items, true)
    decreases |items|, 0
  {
    hide Is8Bit, Announced;
    if items != [] {
      var item, rest := items[0], items[1..];
      if Is8Bit(item) {
        AfterLiteral(rest);
        FrameLiteral(items, []);
        assert JoinSpaced([]) == [];
        hide JoinSpaced, Frame, SpacedRest;
        SpacedStep(items, true);
        var space := if |items| > 1 then [SPACE] else [];
        assert [SPACE] + ([] + [SPACE] + Announced(item) + item + space + Frame(rest, []))
            == [SPACE, SPACE] + (Announced(item) + item) + (space + Frame(rest, []));
      } else {
        FrameIsSpaced(rest, [item]);
        assert [] + [item] == [item];
        assert [SPACE] + (item + SpacedRest(rest, false)) == [SPACE] + item + SpacedRest(rest, false);
      }
    }
  }

  /** The whole command line: one more space in front of a literal that comes first or follows another literal. */
  lemma FrameOnWire(items: seq<Arg>)
    ensures Frame(items, []) == if items == [] then CRLF
                                else (if Is8Bit(items[0]) then [SPACE] else []) + OnWire(items[0])
                                     + SpacedRest(items[1..], Is8Bit(items[0]))
  {
    hide Is8Bit, Announced, SpacedRest, OnWire, Frame;
    FrameNoMore([]);
    if items != [] {
      AfterLiteral(items);
      SpacedStep(items, true);
      var first, rest := OnWire(items[0]), SpacedRest(items[1..], Is8Bit(items[0]));
      var s := (if Is8Bit(items[0]) then [SPACE] else []) + first + rest;
      assert [SPACE] + s == (if Is8Bit(items[0]) then [SPACE, SPACE] else [SPACE]) + first + rest;
      SameAfter([SPACE], Frame(items, []), s);
    }
  }

  // ----- Exactly when the command line is canonical

  ghost predicate LiteralsApart(items: seq<Arg>) {
    && (items != [] ==> !Is8Bit(items[0]))
    && forall i :: 0 <= i < |items| - 1 ==> !(Is8Bit(items[i]) && Is8Bit(items[i + 1]))
  }

  ghost predicate ApartAfter(items: seq<Arg>, afterLiteral: bool) {
    && (items != [] ==> !(afterLiteral && Is8Bit(items[0])))
    && forall i :: 0 <= i < |items| - 1 ==> !(Is8Bit(items[i]) && Is8Bit(items[i + 1]))
  }

  lemma ApartStep(items: seq<Arg>, afterLiteral: bool)
    requires items != []
    ensures ApartAfter(items, afterLiteral)
        <==> !(afterLiteral && Is8Bit(items[0])) && ApartAfter(items[1..], Is8Bit(items[0]))
  {
    hide Is8Bit;
    var rest := items[1..];
    assert forall i :: 0 <= i < |rest| ==> rest[i] == items[i + 1];
    if ApartAfter(items, afterLiteral) && rest != [] {
      assert !(Is8Bit(items[0]) && Is8Bit(items[0 + 1]));
    }
    if !(afterLiteral && Is8Bit(items[0])) && ApartAfter(rest, Is8Bit(items[0])) {
      forall i | 0 <= i < |items| - 1 ensures !(Is8Bit(items[i]) && Is8Bit(items[i + 1])) {
        if i > 0 { assert rest[i - 1] == items[i] && rest[i] == items[i + 1]; } else { assert rest[0] == items[1]; }
      }
    }
  }

  lemma {:induction false} SpacedExact(items: seq<Arg>, afterLiteral: bool)
    ensures |SpacedRest(items, afterLiteral)| >= |CanonicalRest(items)|
    ensures |SpacedRest(items, afterLiteral)| == |CanonicalRest(items)| <==> ApartAfter(items, afterLiteral)
    ensures SpacedRest(items, afterLiteral) == CanonicalRest(items) <==> ApartAfter(items, afterLiteral)
    decreases |items|
  {
    hide Is8Bit, OnWire;
    if items != [] {
      SpacedExact(items[1..], Is8Bit(items[0]));
      ApartStep(items, afterLiteral);
      hide ApartAfter;
    }
  }

  /** The command line has single spaces exactly if no literal comes first or directly behind another literal. */
  lemma FramingExact(items: seq<Arg>)
    ensures Frame(items, []) == Canonical(items) <==> LiteralsApart(items)
  {
    hide *;
    FrameOnWire(items);
    ApartWhole(items);
    CanonicalParts(items);
    if items != [] {
      SpacedExact(items[1..], Is8Bit(items[0]));
      ApartStep(items, true);
      SpaceInFront(OnWire(items[0]), SpacedRest(items[1..], Is8Bit(items[0])), CanonicalRest(items[1..]));
    }
  }

  lemma CanonicalParts(items: seq<Arg>)
    ensures Canonical(items) == if items == [] then CRLF else OnWire(items[0]) + CanonicalRest(items[1..])
    ensures items == [] ==> ApartAfter(items, true)
  {
    hide OnWire, CanonicalRest, Is8Bit;
  }

  lemma SpaceInFront(first: seq<byte>, a: seq<byte>, b: seq<byte>)
    requires |a| >= |b|
    ensures [SPACE] + first + a != first + b
    ensures [] + first + a == first + b <==> a == b
  {
    assert |[SPACE] + first + a| > |first + b|;
    assert [] + first + a == first + a;
    SameAfter(first, a, b);
  }

  lemma ApartWhole(items: seq<Arg>)
    ensures LiteralsApart(items) <==> ApartAfter(items, true)
  {
    hide Is8Bit;
  }

  lemma SameAfter(first: seq<byte>, a: seq<byte>, b: seq<byte>)
    ensures first + a == first + b <==> a == b
  {
    assert (first + a)[|first|..] == a && (first + b)[|first|..] == b;
  }

  /** Two 8-bit arguments in a row: two spaces between them. */
  lemma AdjacentLiterals()
    ensures Frame([[65], [200], [201]], []) != Canonical([[65], [200], [201]])
  {
    var items: seq<Arg> := [[65], [200], [201]];
    assert items[1][0] > 127 && items[2][0] > 127;
    FramingExact(items);
    assert Is8Bit(items[1]) && Is8Bit(items[1 + 1]);
  }
}
