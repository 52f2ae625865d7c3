/** When decoding an encoded mailbox name gives the name back, and what encoded names look like. */
module ModifiedUtf7Proofs {
  import opened Common
  import opened Utf7
  import opened ModifiedUtf7

  /** A run of characters that are encoded together. */
  ghost predicate Run(s: seq<char16>) {
    forall i :: 0 <= i < |s| ==> Buffered(s[i])
  }

  lemma BufferedUnits(u: char16)
    requires Buffered(u)
    ensures Direct(u) <==> Blank(u)
    ensures u != PLUS && (Blank(u) ==> !IsBase64(u) && u != DASH && u < 128)
  {
  }

  // ----- What the codec makes of a run

  predicate InSection(b: byte) {
    (IsBase64(b) || Blank(b)) && b != DASH && b != COMMA
  }

  ghost predicate AllInSection(s: seq<byte>) {
    forall i :: 0 <= i < |s| ==> InSection(s[i])
  }

  /** Is the encoder inside a shifted section after `s`? */
  predicate EndsShifted(s: seq<char16>, shift: bool) {
    if s == [] then shift else !Direct(s[|s| - 1])
  }

  /** The encoding without the dash that closes the last section. */
  function Body(e: seq<byte>, shifted: bool): seq<byte> {
    if shifted && e != [] then e[..|e| - 1] else e
  }

  lemma {:induction false} EmitInSection(value: nat, count: nat)
    requires value < Pow2(count)
    ensures AllInSection(Emit(value, count).digits)
    ensures count >= 6 ==> Emit(value, count).digits != []
    decreases count
  {
    hide Pow2, High, Low;
    if count >= 6 {
      TopSix(value, count);
      DigitRoundTrip(High(value, count - 6));
      EmitInSection(Low(value, count - 6), count - 6);
    }
  }

  lemma PadInSection(value: nat, count: nat)
    requires count < 6 && value < Pow2(count)
    ensures AllInSection(Pad(value, count))
  {
    if count > 0 {
      PadBelow(value, count);
      DigitRoundTrip(value * Pow2(6 - count));
    }
  }

  /** State of the encoder between two characters. */
  datatype Coder = Coder(shift: bool, value: nat, count: nat)

  ghost predicate CoderOk(c: Coder) {
    c.count < 6 && c.value < Pow2(c.count) && (!c.shift ==> c.count == 0)
  }

  ghost function Encoded(s: seq<char16>, c: Coder): seq<byte>
    requires CoderOk(c)
  {
    EncodeFrom(s, c.shift, c.value, c.count)
  }

  const OUTSIDE := Coder(false, 0, 0)

  lemma OutsideOk()
    ensures CoderOk(OUTSIDE)
  {
  }

  /** What one buffered character puts out, and the state behind it. */
  ghost function Front(u: char16, c: Coder): seq<byte>
    requires CoderOk(c) && Buffered(u)
  {
    if Direct(u) then Pad(c.value, c.count) + [u]
    else
      Joined(c.value, c.count, u);
      (if c.shift then [] else [PLUS]) + Emit(c.value * 0x10000 + u, c.count + 16).digits
  }

  ghost function Next(u: char16, c: Coder): (c': Coder)
    requires CoderOk(c)
    ensures CoderOk(c') && c'.shift == !Direct(u)
  {
    OutsideOk();
    if Direct(u) then OUTSIDE
    else
      Joined(c.value, c.count, u);
      var e := Emit(c.value * 0x10000 + u, c.count + 16);
      Coder(true, e.value, e.count)
  }

  lemma EncodeStep(s: seq<char16>, c: Coder)
    requires s != [] && CoderOk(c) && Buffered(s[0])
    ensures Encoded(s, c) == Front(s[0], c) + Encoded(s[1..], Next(s[0], c))
  {
    hide Pow2, Pad, Direct, Emit, IsBase64;
    BufferedUnits(s[0]);
    Joined(c.value, c.count, s[0]);
    var e := Emit(c.value * 0x10000 + s[0], c.count + 16);
    if Direct(s[0]) {
      var rest := EncodeFrom(s[1..], false, 0, 0);
      assert Pad(c.value, c.count) + [] + [s[0]] + rest == Pad(c.value, c.count) + [s[0]] + rest;
    }
  }

  lemma EncodeEnd(c: Coder)
    requires CoderOk(c)
    ensures Encoded([], c) == Pad(c.value, c.count) + (if c.shift then [DASH] else [])
    ensures Body(Encoded([], c), c.shift) == Pad(c.value, c.count)
  {
    hide Pad;
  }

  lemma FrontInSection(u: char16, c: Coder)
    requires CoderOk(c) && Buffered(u)
    ensures Front(u, c) != [] && AllInSection(Front(u, c))
  {
    hide Pow2, Pad, Emit;
    BufferedUnits(u);
    if Direct(u) {
      PadInSection(c.value, c.count);
    } else {
      Joined(c.value, c.count, u);
      EmitInSection(c.value * 0x10000 + u, c.count + 16);
    }
  }

  lemma RunTail(s: seq<char16>)
    requires Run(s) && s != []
    ensures Buffered(s[0]) && Run(s[1..])
    ensures forall shift :: EndsShifted(s, shift) == EndsShifted(s[1..], !Direct(s[0]))
  {
  }

  lemma BodyAfter(front: seq<byte>, rest: seq<byte>, shifted: bool)
    requires shifted ==> rest != []
    ensures Body(front + rest, shifted) == front + Body(rest, shifted)
    ensures rest != [] ==> (front + rest)[|front + rest| - 1] == rest[|rest| - 1]
  {
  }

  lemma BothInSection(a: seq<byte>, b: seq<byte>)
    requires AllInSection(a) && AllInSection(b)
    ensures AllInSection(a + b)
  {
  }

  /** The encoding of a run: digits and blanks, and a dash at the end of the last section only. */
  lemma {:induction false} RunShape(s: seq<char16>, c: Coder)
    requires Run(s) && CoderOk(c)
    ensures EndsShifted(s, c.shift) ==> Encoded(s, c) != [] && Encoded(s, c)[|Encoded(s, c)| - 1] == DASH
    ensures AllInSection(Body(Encoded(s, c), EndsShifted(s, c.shift)))
    decreases |s|
  {
    if s == [] {
      EncodeEnd(c);
      PadInSection(c.value, c.count);
    } else {
      RunTail(s);
      EncodeStep(s, c);
      hide *;
      var front, c' := Front(s[0], c), Next(s[0], c);
      RunShape(s[1..], c');
      FrontInSection(s[0], c);
      var rest, shifted := Encoded(s[1..], c'), EndsShifted(s[1..], c'.shift);
      BodyAfter(front, rest, shifted);
      BothInSection(front, Body(rest, shifted));
    }
  }

  /** A blank at the end leaves the section without a dash. */
  lemma {:induction false} BlankAtEnd(s: seq<char16>, w: char16, c: Coder)
    requires Run(s) && Blank(w) && CoderOk(c)
    ensures Encoded(s + [w], c) == Body(Encoded(s, c), EndsShifted(s, c.shift)) + [w]
    decreases |s|
  {
    if s == [] {
      assert [] + [w] == [w];
      EncodeEnd(c);
      BlankAlone(w, c);
    } else {
      RunTail(s);
      var t := s + [w];
      assert t[0] == s[0] && t[1..] == s[1..] + [w];
      EncodeStep(s, c);
      EncodeStep(t, c);
      hide *;
      var front, c' := Front(s[0], c), Next(s[0], c);
      BlankAtEnd(s[1..], w, c');
      RunShape(s[1..], c');
      var rest, shifted := Encoded(s[1..], c'), EndsShifted(s[1..], c'.shift);
      BodyAfter(front, rest, shifted);
      assert front + (Body(rest, shifted) + [w]) == front + Body(rest, shifted) + [w];
    }
  }

  lemma BlankAlone(w: char16, c: Coder)
    requires Blank(w) && CoderOk(c)
    ensures Encoded([w], c) == Pad(c.value, c.count) + [w]
  {
    EncodeStep([w], c);
    OutsideOk();
    EncodeEnd(OUTSIDE);
    assert [w][1..] == [] && Pad(0, 0) == [];
  }

  // ----- A plus sign in front of an encoded run

  /** The decoder is six bits ahead of the encoder. */
  ghost predicate Misaligned(c: Coder, m: Mode) {
    && c.shift && CoderOk(c) && m.Shifted? && ModeOk(m)
    && ((c.count == 0 && m.count == 6) || (c.count == 4 && m.count == 2) || (c.count == 2 && m.count == 4))
  }

  lemma FeedCount(value: nat, count: nat, x: nat)
    requires count < 16 && value < Pow2(count) && x < 64
    ensures Feed(value, count, x).1.count == if count >= 10 then count - 10 else count + 6
  {
    hide Pow2, High, Low;
  }

  /** At the end of the section bits are left over that do not make a character. */
  lemma MisalignedEnd(c: Coder, m: Mode, b: byte, t: seq<byte>)
    requires Misaligned(c, m) && !IsBase64(b)
    ensures DecodeFrom(Pad(c.value, c.count) + ([b] + t), m).Err?
  {
    assert ([b] + t)[0] == b;
    if c.count == 0 {
      assert Pad(c.value, c.count) + ([b] + t) == [b] + t;
    } else {
      PadBelow(c.value, c.count);
      var x := c.value * Pow2(6 - c.count);
      DecodeDigit(x, [b] + t, m.value, m.count);
      FeedCount(m.value, m.count, x);
      hide Feed, Pow2;
      assert Feed(m.value, m.count, x).1.count >= 6;
    }
  }

  /** The digits of a unit keep decoder and encoder apart. */
  lemma MisalignedUnit(c: Coder, m: Mode, u: char16, rest: seq<byte>)
    requires Misaligned(c, m) && c.value * 0x10000 + u < Pow2(c.count + 16)
    ensures var e := Emit(c.value * 0x10000 + u, c.count + 16);
            exists m' :: Misaligned(Coder(true, e.value, e.count), m')
                         && (DecodeFrom(rest, m').Err? ==> DecodeFrom(e.digits + rest, m).Err?)
  {
    Powers();
    hide Pow2, DecodeFrom, Emit, ToBase64, Feed;
    if c.count == 0 {
      EmitAligned(u);
      var x, y := u / 1024, u / 16 % 64;
      TwoDigits(x, y, m.value, m.count, rest);
      var a := Feed(m.value, m.count, x);
      var b := Feed(a.1.value, a.1.count, y);
      FeedCount(m.value, m.count, x);
      FeedCount(a.1.value, a.1.count, y);
      assert Misaligned(Coder(true, u % 16, 4), b.1);
    } else {
      var x, y, z;
      if c.count == 4 {
        EmitAfterFour(c.value, u);
        x, y, z := c.value * 4 + u / 16384, u / 256 % 64, u / 4 % 64;
      } else {
        EmitAfterTwo(c.value, u);
        x, y, z := c.value * 16 + u / 4096, u / 64 % 64, u % 64;
      }
      ThreeDigits(x, y, z, m.value, m.count, rest);
      var a := Feed(m.value, m.count, x);
      var b := Feed(a.1.value, a.1.count, y);
      var d := Feed(b.1.value, b.1.count, z);
      FeedCount(m.value, m.count, x);
      FeedCount(a.1.value, a.1.count, y);
      FeedCount(b.1.value, b.1.count, z);
      assert Misaligned(if c.count == 4 then Coder(true, u % 4, 2) else Coder(true, 0, 0), d.1);
    }
  }

  lemma BlankText(s: seq<char16>, c: Coder, t: seq<byte>)
    requires s != [] && CoderOk(c) && Blank(s[0])
    ensures CoderOk(OUTSIDE)
    ensures Encoded(s, c) + t == Pad(c.value, c.count) + ([s[0]] + (Encoded(s[1..], OUTSIDE) + t))
  {
    hide EncodeFrom, Pad, Pow2, Emit;
    OutsideOk();
    EncodeStep(s, c);
    var b: byte := s[0];
    Associate(Pad(c.value, c.count), [], [b], Encoded(s[1..], OUTSIDE), t);
    assert Pad(c.value, c.count) + [] == Pad(c.value, c.count);
    assert [] + ([b] + (Encoded(s[1..], OUTSIDE) + t)) == [b] + (Encoded(s[1..], OUTSIDE) + t);
  }

  lemma UnitText(s: seq<char16>, c: Coder, t: seq<byte>)
    requires s != [] && CoderOk(c) && c.shift && Buffered(s[0]) && !Blank(s[0])
    ensures !Direct(s[0]) && c.value * 0x10000 + s[0] < Pow2(c.count + 16)
    ensures var e := Emit(c.value * 0x10000 + s[0], c.count + 16);
            Encoded(s, c) + t == e.digits + (Encoded(s[1..], Coder(true, e.value, e.count)) + t)
  {
    hide EncodeFrom, Pad, Pow2, Emit;
    BufferedUnits(s[0]);
    Joined(c.value, c.count, s[0]);
    EncodeStep(s, c);
    var e := Emit(c.value * 0x10000 + s[0], c.count + 16);
    assert [] + e.digits == e.digits;
  }

  lemma {:induction false} MisalignedFails(s: seq<char16>, c: Coder, m: Mode, t: seq<byte>)
    requires Run(s) && Misaligned(c, m)
    ensures DecodeFrom(Encoded(s, c) + t, m).Err?
    decreases |s|
  {
    if s == [] {
      EncodeEnd(c);
      MisalignedEnd(c, m, DASH, t);
      assert Encoded(s, c) + t == Pad(c.value, c.count) + ([DASH] + t);
    } else {
      RunTail(s);
      BufferedUnits(s[0]);
      hide DecodeFrom, EncodeFrom, Encoded, Pad, Pow2, Direct, Emit;
      if Blank(s[0]) {
        BlankText(s, c, t);
        MisalignedEnd(c, m, s[0], Encoded(s[1..], OUTSIDE) + t);
      } else {
        UnitText(s, c, t);
        var e := Emit(c.value * 0x10000 + s[0], c.count + 16);
        var rest := Encoded(s[1..], Coder(true, e.value, e.count)) + t;
        MisalignedUnit(c, m, s[0], rest);
        var m' :| Misaligned(Coder(true, e.value, e.count), m')
                  && (DecodeFrom(rest, m').Err? ==> DecodeFrom(e.digits + rest, m).Err?);
        MisalignedFails(s[1..], Coder(true, e.value, e.count), m', t);
      }
    }
  }

  /** Reading a run with a plus sign in front: a leading blank ends the section again, anything else fails. */
  lemma PlusBefore(s: seq<char16>, t: seq<byte>)
    requires Run(s) && s != []
    ensures var r := DecodeFrom([PLUS] + (Utf7.Encode(s) + t), Plain);
            if Blank(s[0]) then r == Then(s, DecodeFrom(t, Plain)) else r.Err?
  {
    hide DecodeFrom, EncodeFrom;
    assert Buffered(s[0]);
    if Blank(s[0]) { PlusBeforeBlank(s, t); } else { PlusBeforeUnit(s, t); }
  }

  lemma PlusBeforeBlank(s: seq<char16>, t: seq<byte>)
    requires Run(s) && s != [] && Blank(s[0])
    ensures DecodeFrom([PLUS] + (Utf7.Encode(s) + t), Plain) == Then(s, DecodeFrom(t, Plain))
  {
    hide DecodeFrom, EncodeFrom, Then;
    OutsideOk();
    BlankText(s, OUTSIDE, t);
    var b: byte := s[0];
    var rest := Utf7.Encode(s[1..]) + t;
    assert Utf7.Encode(s) + t == [b] + rest by { assert Pad(0, 0) == []; }
    EnterSection([b] + rest);
    LeaveAtOnce(b, rest);
    EncodeThenDecode(s[1..], t);
    ThenThen([b], s[1..], DecodeFrom(t, Plain));
    assert [b] + s[1..] == s;
  }

  lemma PlusBeforeUnit(s: seq<char16>, t: seq<byte>)
    requires Run(s) && s != [] && Buffered(s[0]) && !Blank(s[0])
    ensures DecodeFrom([PLUS] + (Utf7.Encode(s) + t), Plain).Err?
  {
    hide DecodeFrom;
    BufferedUnits(s[0]);
    var inside := Coder(true, 0, 0);
    OutsideOk();
    var rest := Encoded(s, inside) + t;
    assert Utf7.Encode(s) + t == [PLUS] + rest by { SectionOpens(s); }
    hide EncodeFrom;
    EnterSection([PLUS] + rest);
    DigitRoundTrip(62);
    Powers();
    DecodeDigit(62, rest, 0, 0);
    assert Feed(0, 0, 62) == ([], Shifted(62, 6));
    assert Misaligned(inside, Shifted(62, 6));
    MisalignedFails(s, inside, Shifted(62, 6), t);
  }

  /** Before a character that is not direct, the encoder opens a section. */
  lemma SectionOpens(s: seq<char16>)
    requires s != [] && Buffered(s[0]) && !Blank(s[0])
    ensures CoderOk(Coder(true, 0, 0)) && Utf7.Encode(s) == [PLUS] + Encoded(s, Coder(true, 0, 0))
  {
    hide Pow2, Emit;
    BufferedUnits(s[0]);
    OutsideOk();
    EncodeStep(s, OUTSIDE);
    EncodeStep(s, Coder(true, 0, 0));
    Joined(0, 0, s[0]);
    var e := Emit(0 * 0x10000 + s[0], 0 + 16);
    assert Front(s[0], OUTSIDE) == [PLUS] + e.digits;
    assert Front(s[0], Coder(true, 0, 0)) == e.digits by { assert [] + e.digits == e.digits; }
    hide EncodeFrom, Front;
    FlatAppend(e.digits, Encoded(s[1..], Coder(true, e.value, e.count)));
  }

  lemma FlatAppend(a: seq<byte>, b: seq<byte>)
    ensures [PLUS] + a + b == [PLUS] + (a + b)
  {
  }

  lemma LeaveAtOnce(b: byte, rest: seq<byte>)
    requires !IsBase64(b) && b != DASH
    ensures ModeOk(Shifted(0, 0)) && DecodeFrom([b] + rest, Shifted(0, 0)) == Then([b], DecodeFrom(rest, Plain))
  {
    assert Pow2(0) == 1;
    assert ([b] + rest)[0] == b && ([b] + rest)[1..] == rest;
  }

  // ----- One run, encoded and decoded

  /** What decoding makes of an encoded run. */
  function RunResult(s: seq<char16>): Result<seq<char16>, Utf7Error> {
    SectionValue(Modified(s))
  }

  /** A run whose first and last character are not blanks. */
  predicate Framed(s: seq<char16>) {
    s != [] ==> !Blank(s[0]) && !Blank(s[|s| - 1])
  }

  /** No longer than the run, and equal to it exactly if `same`. */
  ghost predicate Outcome(r: Result<seq<char16>, Utf7Error>, s: seq<char16>, same: bool) {
    if same then r == Ok(s) else r.Err? || (|r.value| <= |s| && r.value != s)
  }

  lemma SwapBack(s: seq<byte>)
    requires AllInSection(s)
    ensures Swap(Swap(s, SLASH, COMMA), COMMA, SLASH) == s
    ensures forall i :: 0 <= i < |s| ==> Swap(s, SLASH, COMMA)[i] != DASH
  {
    forall i | 0 <= i < |s| ensures Swap(Swap(s, SLASH, COMMA), COMMA, SLASH)[i] == s[i] { assert InSection(s[i]); }
    forall i | 0 <= i < |s| ensures Swap(s, SLASH, COMMA)[i] != DASH { assert InSection(s[i]); }
  }

  /** Without its first and last byte an encoded run holds only digits and blanks. */
  lemma InnerInSection(s: seq<char16>)
    requires Run(s) && s != []
    ensures AllInSection(Inner(Utf7.Encode(s)))
  {
    OutsideOk();
    RunShape(s, OUTSIDE);
    hide EncodeFrom;
    var e := Utf7.Encode(s);
    var body := Body(e, EndsShifted(s, false));
    forall i | 0 <= i < |Inner(e)| ensures InSection(Inner(e)[i]) {
      assert Inner(e)[i] == e[i + 1] == body[i + 1];
    }
  }

  lemma RunText(s: seq<char16>)
    requires Run(s) && s != []
    ensures RunResult(s) == var inner := Inner(Utf7.Encode(s));
            if inner == [] then Ok([AMP]) else DecodeFrom([PLUS] + inner + [DASH], Plain)
  {
    InnerInSection(s);
    SwapBack(Inner(Utf7.Encode(s)));
  }

  /** The first bytes of an encoded run. */
  lemma RunOpens(s: seq<char16>)
    requires Run(s) && s != []
    ensures var e := Utf7.Encode(s);
            if Blank(s[0]) then e == [s[0]] + Utf7.Encode(s[1..]) else |e| > 2 && e[0] == PLUS
    ensures Body(Utf7.Encode(s), EndsShifted(s, false)) != []
    ensures !Blank(s[0]) ==> |Body(Utf7.Encode(s), EndsShifted(s, false))| >= 2
  {
    hide EncodeFrom;
    assert Buffered(s[0]);
    OutsideOk();
    RunShape(s, OUTSIDE);
    if Blank(s[0]) {
      BlankText(s, OUTSIDE, []);
      assert Pad(0, 0) == [];
      assert Utf7.Encode(s) + [] == Utf7.Encode(s) && Utf7.Encode(s[1..]) + [] == Utf7.Encode(s[1..]);
      assert [] + ([s[0]] + Utf7.Encode(s[1..])) == [s[0]] + Utf7.Encode(s[1..]);
      RunTail(s);
      BufferedUnits(s[0]);
      RunShape(s[1..], OUTSIDE);
    } else {
      SectionOpens(s);
      var inside := Coder(true, 0, 0);
      EncodeStep(s, inside);
      FrontInSection(s[0], inside);
      RunTail(s);
      BufferedUnits(s[0]);
      RunShape(s[1..], Next(s[0], inside));
      var front, rest := Front(s[0], inside), Encoded(s[1..], Next(s[0], inside));
      assert Utf7.Encode(s) == [PLUS] + (front + rest);
      if EndsShifted(s, false) { assert rest != []; }
    }
  }

  lemma FramedRun(s: seq<char16>)
    requires Run(s) && s != [] && Framed(s)
    ensures RunResult(s) == Ok(s)
  {
    hide EncodeFrom, DecodeFrom;
    OutsideOk();
    RunOpens(s);
    RunShape(s, OUTSIDE);
    BufferedUnits(s[|s| - 1]);
    RunText(s);
    var e := Utf7.Encode(s);
    assert [PLUS] + Inner(e) + [DASH] == e;
    CodecRoundTrip(s);
  }

  /** Decoding the body of an encoded run, closed by a dash: if the run ends in a blank, the dash stays. */
  lemma ClosedBody(s: seq<char16>, front: seq<byte>)
    requires Run(s) && s != []
    ensures front + Body(Utf7.Encode(s), EndsShifted(s, false)) + [DASH]
         == front + (Utf7.Encode(s) + (if Blank(s[|s| - 1]) then [DASH] else []))
  {
    hide EncodeFrom;
    OutsideOk();
    RunShape(s, OUTSIDE);
    BufferedUnits(s[|s| - 1]);
    var e := Utf7.Encode(s);
    if Blank(s[|s| - 1]) {
      assert Body(e, false) == e;
    } else {
      assert e == e[..|e| - 1] + [DASH] && e + [] == e;
    }
  }

  lemma DashAfter(s: seq<char16>, dash: bool)
    ensures DecodeFrom(Utf7.Encode(s) + (if dash then [DASH] else []), Plain) == Ok(s + if dash then [DASH] else [])
  {
    EncodeThenDecode(s, if dash then [DASH] else []);
    if dash {
      PlainChar(DASH, []);
      assert [DASH] + [] == [DASH];
      assert DecodeFrom([], Plain) == Ok([]);
    }
  }

  /** A blank only at the end is lost, or replaced by a dash. */
  lemma BlankLast(p: seq<char16>, w: char16)
    requires Run(p + [w]) && p != [] && !Blank(p[0]) && Blank(w)
    ensures Outcome(RunResult(p + [w]), p + [w], false)
  {
    hide EncodeFrom, DecodeFrom;
    var s := p + [w];
    assert Run(p) by { forall i | 0 <= i < |p| ensures Buffered(p[i]) { assert p[i] == s[i]; } }
    OutsideOk();
    BlankAtEnd(p, w, OUTSIDE);
    RunOpens(p);
    RunText(s);
    var body := Body(Utf7.Encode(p), EndsShifted(p, false));
    assert body[0] == PLUS;
    assert Inner(Utf7.Encode(s)) == body[1..];
    assert [PLUS] + body[1..] + [DASH] == [] + body + [DASH];
    ClosedBody(p, []);
    var dash := Blank(p[|p| - 1]);
    assert [] + (Utf7.Encode(p) + (if dash then [DASH] else [])) == Utf7.Encode(p) + (if dash then [DASH] else []);
    DashAfter(p, dash);
    if dash { assert (p + [DASH])[|p|] == DASH && s[|p|] == w; }
  }

  /** A plus sign, a run and perhaps a dash: an error, or a text that is shorter than `n`. */
  lemma PlusRun(p: seq<char16>, dash: bool)
    requires Run(p) && p != []
    ensures var r := DecodeFrom([PLUS] + (Utf7.Encode(p) + (if dash then [DASH] else [])), Plain);
            r.Err? || |r.value| == |p| + (if dash then 1 else 0)
  {
    hide EncodeFrom;
    PlusBefore(p, if dash then [DASH] else []);
    if dash {
      PlainChar(DASH, []);
      assert [DASH] + [] == [DASH];
    }
    assert DecodeFrom([], Plain) == Ok([]);
  }

  /** A blank at the start takes the place of the sign that opens the section. */
  lemma BlankFirst(w: char16, q: seq<char16>)
    requires Run([w] + q) && Blank(w)
    ensures Outcome(RunResult([w] + q), [w] + q, false)
  {
    hide EncodeFrom, DecodeFrom;
    var s := [w] + q;
    assert s[0] == w && s[1..] == q;
    assert Run(q) by { forall i | 0 <= i < |q| ensures Buffered(q[i]) { assert q[i] == s[i + 1]; } }
    OutsideOk();
    RunOpens(s);
    RunText(s);
    var e := Utf7.Encode(q);
    if q == [] {
      assert e == [] by { EncodeEnd(OUTSIDE); assert Pad(0, 0) == []; }
      assert Inner(Utf7.Encode(s)) == [];
    } else if Blank(q[|q| - 1]) {
      assert q == q[..|q| - 1] + [q[|q| - 1]];
      assert [w] + q[..|q| - 1] + [q[|q| - 1]] == s;
      hide *;
      BlankBoth(w, q[..|q| - 1], q[|q| - 1]);
    } else {
      BlankOnlyFirst(w, q);
    }
  }

  /** The encoding of a run that ends inside a section ends in a dash. */
  lemma ShiftedShape(s: seq<char16>)
    requires Run(s) && s != [] && !Blank(s[|s| - 1])
    ensures var e := Utf7.Encode(s); |e| >= 2 && e[|e| - 1] == DASH
  {
    hide EncodeFrom;
    OutsideOk();
    RunShape(s, OUTSIDE);
    RunOpens(s);
    BufferedUnits(s[|s| - 1]);
  }

  lemma InnerOfBlank(w: byte, e: seq<byte>)
    requires |e| >= 2 && e[|e| - 1] == DASH
    ensures Inner([w] + e) != [] && [PLUS] + Inner([w] + e) + [DASH] == [PLUS] + (e + [])
  {
    assert Inner([w] + e) == e[..|e| - 1];
  }

  lemma BlankOnlyFirst(w: char16, q: seq<char16>)
    requires Run([w] + q) && Run(q) && Blank(w) && q != [] && !Blank(q[|q| - 1])
    ensures Outcome(RunResult([w] + q), [w] + q, false)
  {
    var s := [w] + q;
    assert s[0] == w && s[1..] == q;
    hide EncodeFrom, DecodeFrom, Utf7.Encode, RunResult, Body, Run, Inner;
    ShiftedShape(q);
    RunOpens(s);
    RunText(s);
    InnerOfBlank(w, Utf7.Encode(q));
    PlusRun(q, false);
  }

  lemma BlankBothInner(w: char16, p: seq<char16>, w': char16)
    requires Run([w] + p + [w']) && Blank(w) && Blank(w')
    ensures Run(p) && Inner(Utf7.Encode([w] + p + [w'])) == Body(Utf7.Encode(p), EndsShifted(p, false))
  {
    hide EncodeFrom;
    var s := [w] + p + [w'];
    assert s[0] == w && s[1..] == p + [w'];
    assert Run(p) by { forall i | 0 <= i < |p| ensures Buffered(p[i]) { assert p[i] == s[i + 1]; } }
    OutsideOk();
    RunOpens(s);
    BlankAtEnd(p, w', OUTSIDE);
    var body := Body(Utf7.Encode(p), EndsShifted(p, false));
    assert Utf7.Encode(s) == [w] + (body + [w']);
  }

  lemma EncodeNothing()
    ensures Utf7.Encode([]) == []
  {
    OutsideOk();
    EncodeEnd(OUTSIDE);
    assert Pad(0, 0) == [];
  }

  lemma BlankBoth(w: char16, p: seq<char16>, w': char16)
    requires Run([w] + p + [w']) && Blank(w) && Blank(w')
    ensures Outcome(RunResult([w] + p + [w']), [w] + p + [w'], false)
  {
    hide EncodeFrom, DecodeFrom, RunResult, Utf7.Encode;
    BlankBothInner(w, p, w');
    RunText([w] + p + [w']);
    if p == [] {
      EncodeNothing();
    } else {
      RunOpens(p);
      ClosedBody(p, [PLUS]);
      PlusRun(p, Blank(p[|p| - 1]));
    }
  }

  /** A run comes back exactly if it neither starts nor ends with a blank; it never comes back longer. */
  lemma RunOutcome(s: seq<char16>)
    requires Run(s) && s != []
    ensures Outcome(RunResult(s), s, Framed(s))
  {
    hide RunResult, Run;
    var n := |s| - 1;
    if Framed(s) {
      FramedRun(s);
    } else if Blank(s[0]) {
      assert [s[0]] + s[1..] == s;
      BlankFirst(s[0], s[1..]);
    } else {
      assert s[..n] + [s[n]] == s;
      BlankLast(s[..n], s[n]);
    }
  }

  // ----- Whole names

  /** Every blank has buffered characters on both sides. */
  ghost predicate BlanksInside(s: seq<char16>) {
    forall i :: 0 <= i < |s| && Blank(s[i]) ==> 0 < i < |s| - 1 && Buffered(s[i - 1]) && Buffered(s[i + 1])
  }

  /** The same along the encoder's loop: every run is framed. */
  ghost predicate RunsFramed(s: seq<char16>, buffer: seq<char16>) {
    if s == [] then Framed(buffer)
    else if Buffered(s[0]) then RunsFramed(s[1..], buffer + [s[0]])
    else Framed(buffer) && RunsFramed(s[1..], [])
  }

  /** The condition on blanks in one pass; `before` tells whether a buffered character stands before `s`. */
  ghost predicate InsideFrom(s: seq<char16>, before: bool) {
    s != [] ==>
      && (Blank(s[0]) ==> before && |s| > 1 && Buffered(s[1]))
      && InsideFrom(s[1..], Buffered(s[0]))
  }

  ghost predicate BlanksFrom(s: seq<char16>, before: bool) {
    forall i :: 0 <= i < |s| && Blank(s[i]) ==> BlankInside(s, i, before)
  }

  ghost predicate BlankInside(s: seq<char16>, i: int, before: bool)
    requires 0 <= i < |s|
  {
    i + 1 < |s| && Buffered(s[i + 1]) && if i > 0 then Buffered(s[i - 1]) else before
  }

  lemma {:induction false} InsideEverywhere(s: seq<char16>, before: bool)
    ensures InsideFrom(s, before) <==> BlanksFrom(s, before)
    decreases |s|
  {
    if s != [] {
      var t := s[1..];
      InsideEverywhere(t, Buffered(s[0]));
      hide Blank, Buffered;
      assert forall i :: 0 < i < |s| ==>
        s[i] == t[i - 1] && (BlankInside(s, i, before) <==> BlankInside(t, i - 1, Buffered(s[0])));
      assert Blank(s[0]) ==> (BlankInside(s, 0, before) <==> before && |s| > 1 && Buffered(s[1]));
      if BlanksFrom(s, before) {
        forall i | 0 <= i < |t| && Blank(t[i]) ensures BlankInside(t, i, Buffered(s[0])) { assert s[i + 1] == t[i]; }
      }
    }
  }

  lemma {:induction false} FramedAlong(s: seq<char16>, buffer: seq<char16>)
    requires buffer != [] ==> !Blank(buffer[0])
    ensures RunsFramed(s, buffer) <==>
              InsideFrom(s, buffer != []) && (buffer != [] && Blank(buffer[|buffer| - 1]) ==> s != [] && Buffered(s[0]))
    decreases |s|
  {
    if s != [] {
      if Buffered(s[0]) && buffer == [] && Blank(s[0]) {
        NeverFramed(s[1..], [s[0]]);
        assert buffer + [s[0]] == [s[0]];
      } else if Buffered(s[0]) {
        FramedAlong(s[1..], buffer + [s[0]]);
      } else {
        FramedAlong(s[1..], []);
      }
    }
  }

  lemma {:induction false} NeverFramed(s: seq<char16>, buffer: seq<char16>)
    requires buffer != [] && Blank(buffer[0])
    ensures !RunsFramed(s, buffer)
    decreases |s|
  {
    if s != [] && Buffered(s[0]) { NeverFramed(s[1..], buffer + [s[0]]); }
  }

  // ----- The loops of encode and decode

  lemma JoinUnit(r: Result<seq<char16>, Utf7Error>)
    ensures Join(Ok([]), r) == r && Join(r, Ok([])) == r
  {
    ThenThen([], [], r);
    if r.Ok? { assert r.value + [] == r.value; }
  }

  /** Inside a section the decoder collects everything up to a dash. */
  lemma {:induction false} Collects(text: seq<byte>, t: seq<byte>, buffer: seq<byte>)
    requires buffer != [] && forall i :: 0 <= i < |text| ==> text[i] != DASH
    ensures DecodeLoop(text + t, buffer) == DecodeLoop(t, buffer + text)
    ensures Scan(text + t, buffer) == Scan(t, buffer + text)
    decreases |text|
  {
    if text == [] {
      assert text + t == t && buffer + text == buffer;
    } else {
      assert (text + t)[0] == text[0] && (text + t)[1..] == text[1..] + t;
      Collects(text[1..], t, buffer + [text[0]]);
      assert buffer + [text[0]] + text[1..] == buffer + text;
    }
  }

  ghost function RunValue(s: seq<char16>): Result<seq<char16>, Utf7Error> {
    if s == [] then Ok([]) else RunResult(s)
  }

  lemma FlushDecodes(s: seq<char16>, t: seq<byte>)
    requires Run(s)
    ensures DecodeLoop(Flush(s) + t, []) == Join(RunValue(s), DecodeLoop(t, []))
    ensures Scan(Flush(s) + t, [])
         == (if s == [] then [] else if Modified(s) == [] then [Char(AMP)] else [Coded(Modified(s))]) + Scan(t, [])
  {
    hide Modified;
    if s == [] {
      assert Flush(s) + t == t;
      JoinUnit(DecodeLoop(t, []));
    } else {
      var m := Modified(s);
      NoDashInside(s);
      var text := Flush(s) + t;
      assert text[0] == AMP && text[1..] == m + ([DASH] + t);
      Collects(m, [DASH] + t, [AMP]);
      assert ([AMP] + m)[1..] == m;
      assert ([DASH] + t)[0] == DASH && ([DASH] + t)[1..] == t;
    }
  }

  lemma NoDashInside(s: seq<char16>)
    requires Run(s) && s != []
    ensures forall i :: 0 <= i < |Modified(s)| ==> Modified(s)[i] != DASH
  {
    InnerInSection(s);
    SwapBack(Inner(Utf7.Encode(s)));
  }

  /** Decoding an encoded name, run by run. */
  ghost function Back(s: seq<char16>, buffer: seq<char16>): Result<seq<char16>, Utf7Error>
    decreases |s|
  {
    if s == [] then RunValue(buffer)
    else if Buffered(s[0]) then Back(s[1..], buffer + [s[0]])
    else Join(RunValue(buffer), Then([s[0]], Back(s[1..], [])))
  }

  lemma CharDecodes(c: byte, t: seq<byte>)
    requires Printable(c)
    ensures DecodeLoop([c] + t, []) == Then([c], DecodeLoop(t, [])) && Scan([c] + t, []) == [Char(c)] + Scan(t, [])
  {
    assert ([c] + t)[0] == c && ([c] + t)[1..] == t;
  }

  lemma AmpDecodes(t: seq<byte>)
    ensures DecodeLoop([AMP, DASH] + t, []) == Then([AMP], DecodeLoop(t, []))
    ensures Scan([AMP, DASH] + t, []) == [Char(AMP)] + Scan(t, [])
  {
    var text := [AMP, DASH] + t;
    assert text[0] == AMP && text[1..] == [DASH] + t;
    assert ([DASH] + t)[0] == DASH && ([DASH] + t)[1..] == t;
    assert DecodeLoop(text, []) == DecodeLoop([DASH] + t, [AMP]);
    assert [AMP][1..] == [];
  }

  lemma NothingLeft()
    ensures DecodeLoop([], []) == Ok([]) && Scan([], []) == []
  {
  }

  lemma {:induction false} DecodesBack(s: seq<char16>, buffer: seq<char16>)
    requires Run(buffer)
    ensures DecodeLoop(EncodeLoop(s, buffer), []) == Back(s, buffer)
    decreases |s|
  {
    hide DecodeLoop, Flush, RunValue;
    if s == [] {
      FlushDecodes(buffer, []);
      assert Flush(buffer) + [] == Flush(buffer);
      NothingLeft();
      JoinUnit(RunValue(buffer));
    } else if Buffered(s[0]) {
      DecodesBack(s[1..], buffer + [s[0]]);
    } else {
      var rest := EncodeLoop(s[1..], []);
      DecodesBack(s[1..], []);
      if Printable(s[0]) {
        FlushDecodes(buffer, [s[0]] + rest);
        CharDecodes(s[0], rest);
        assert Flush(buffer) + [s[0]] + rest == Flush(buffer) + ([s[0]] + rest);
      } else {
        FlushDecodes(buffer, [AMP, DASH] + rest);
        AmpDecodes(rest);
        assert Flush(buffer) + [AMP, DASH] + rest == Flush(buffer) + ([AMP, DASH] + rest);
      }
    }
  }

  /** Two parts, neither longer than it was: together they are what they were only if each is. */
  lemma JoinOutcome(a: Result<seq<char16>, Utf7Error>, s: seq<char16>, x: bool, c: char16,
                    b: Result<seq<char16>, Utf7Error>, t: seq<char16>, y: bool)
    requires Outcome(a, s, x) && Outcome(b, t, y)
    ensures Outcome(Join(a, Then([c], b)), s + ([c] + t), x && y)
  {
    if a.Ok? && b.Ok? {
      var r := a.value + ([c] + b.value);
      if r == s + ([c] + t) {
        assert |a.value| == |s| && |b.value| == |t|;
        assert a.value == r[..|s|] && b.value == r[|s| + 1..];
        assert s == r[..|s|] && t == r[|s| + 1..];
      }
    }
  }

  lemma RunValueOutcome(s: seq<char16>)
    requires Run(s)
    ensures Outcome(RunValue(s), s, Framed(s))
  {
    if s != [] { RunOutcome(s); }
  }

  lemma NoRun()
    ensures Run([])
  {
  }

  lemma RunGrows(s: seq<char16>, c: char16)
    requires Run(s) && Buffered(c)
    ensures Run(s + [c])
  {
  }

  lemma {:induction false} BackOutcome(s: seq<char16>, buffer: seq<char16>)
    requires Run(buffer)
    ensures Outcome(Back(s, buffer), buffer + s, RunsFramed(s, buffer))
    decreases |s|
  {
    hide Outcome, Run, RunValue, Framed;
    RunValueOutcome(buffer);
    if s == [] {
      assert buffer + s == buffer;
    } else if Buffered(s[0]) {
      RunGrows(buffer, s[0]);
      BackOutcome(s[1..], buffer + [s[0]]);
      assert buffer + [s[0]] + s[1..] == buffer + s;
    } else {
      NoRun();
      BackOutcome(s[1..], []);
      assert [] + s[1..] == s[1..];
      JoinOutcome(RunValue(buffer), buffer, Framed(buffer), s[0], Back(s[1..], []), s[1..], RunsFramed(s[1..], []));
      assert buffer + ([s[0]] + s[1..]) == buffer + s;
    }
  }

  /** Decoding an encoded name gives it back exactly if every tab, line feed and carriage return stands between
      characters that are encoded too. */
  lemma RoundTripExact(s: seq<char16>)
    ensures DecodeName(EncodeName(s)) == Ok(s) <==> BlanksInside(s)
  {
    DecodesBack(s, []);
    BackOutcome(s, []);
    assert [] + s == s;
    FramedAlong(s, []);
    InsideEverywhere(s, false);
    BlanksFromStart(s);
    hide DecodeLoop, EncodeLoop, Back, RunsFramed, InsideFrom, BlanksFrom, BlanksInside;
  }

  lemma BlanksFromStart(s: seq<char16>)
    ensures BlanksFrom(s, false) <==> BlanksInside(s)
  {
    hide Blank, Buffered;
    assert forall i :: 0 <= i < |s| ==>
             (BlankInside(s, i, false) <==> 0 < i < |s| - 1 && Buffered(s[i - 1]) && Buffered(s[i + 1]));
  }

  /** In particular every name without these characters comes back. */
  lemma NameRoundTrip(s: seq<char16>)
    requires forall i :: 0 <= i < |s| ==> !Blank(s[i])
    ensures DecodeName(EncodeName(s)) == Ok(s)
  {
    RoundTripExact(s);
  }

  /** A tab alone is encoded as `&-` and comes back as an ampersand. */
  lemma LoneTab()
    ensures EncodeName([9]) == [AMP, DASH] && DecodeName(EncodeName([9])) == Ok([AMP])
  {
    assert [9][1..] == [] && [] + [9] == [9];
    OutsideOk();
    BlankAlone(9, OUTSIDE);
    assert Pad(0, 0) == [] && [] + [9] == [9];
    assert Utf7.Encode([9]) == [9];
    assert EncodeName([9]) == Flush([9]);
    assert Flush([9]) == [AMP, DASH];
    AmpDecodes([]);
    assert [AMP, DASH] + [] == [AMP, DASH];
    assert DecodeLoop([], []) == Ok([]) && [AMP] + [] == [AMP];
  }

  // ----- Sections are never adjacent

  /** What the decoder's loop sees: a character, or the text of a base64 section. */
  datatype Piece = Char(c: byte) | Coded(text: seq<byte>)

  function Scan(t: seq<byte>, buffer: seq<byte>): seq<Piece>
    decreases |t|
  {
    if t == [] then (if buffer != [] then [Coded(buffer[1..])] else [])
    else if t[0] == AMP && buffer == [] then Scan(t[1..], [AMP])
    else if t[0] == DASH && buffer != [] then
      [if |buffer| == 1 then Char(AMP) else Coded(buffer[1..])] + Scan(t[1..], [])
    else if buffer != [] then Scan(t[1..], buffer + [t[0]])
    else [Char(t[0])] + Scan(t[1..], [])
  }

  function PieceValue(p: Piece): Result<seq<char16>, Utf7Error> {
    match p
    case Char(c) => Ok([c])
    case Coded(text) => Unmodified(text)
  }

  function PiecesValue(ps: seq<Piece>): Result<seq<char16>, Utf7Error> {
    if ps == [] then Ok([]) else Join(PieceValue(ps[0]), PiecesValue(ps[1..]))
  }

  /** The pieces are what decoding decodes, for every text. */
  lemma {:induction false} DecodingIsScanning(t: seq<byte>, buffer: seq<byte>)
    ensures DecodeLoop(t, buffer) == PiecesValue(Scan(t, buffer))
    decreases |t|
  {
    hide Unmodified;
    if t == [] {
      if buffer != [] { JoinUnit(Unmodified(buffer[1..])); }
    } else if t[0] == AMP && buffer == [] {
      DecodingIsScanning(t[1..], [AMP]);
    } else if t[0] == DASH && buffer != [] {
      DecodingIsScanning(t[1..], []);
      var p := if |buffer| == 1 then Char(AMP) else Coded(buffer[1..]);
      assert ([p] + Scan(t[1..], []))[1..] == Scan(t[1..], []);
    } else if buffer != [] {
      DecodingIsScanning(t[1..], buffer + [t[0]]);
    } else {
      DecodingIsScanning(t[1..], []);
      assert ([Char(t[0])] + Scan(t[1..], []))[1..] == Scan(t[1..], []);
    }
  }

  ghost predicate NoTwoCoded(ps: seq<Piece>) {
    forall i :: 0 <= i < |ps| - 1 ==> !(ps[i].Coded? && ps[i + 1].Coded?)
  }

  ghost predicate Apart(ps: seq<Piece>) {
    NoTwoCoded(ps) && forall i :: 0 <= i < |ps| ==> ps[i] != Coded([])
  }

  /** What an encoded run adds to the pieces. */
  function FlushPieces(s: seq<char16>): (ps: seq<Piece>)
    ensures |ps| <= 1 && forall i :: 0 <= i < |ps| ==> ps[i] != Coded([])
  {
    if s == [] then [] else if Modified(s) == [] then [Char(AMP)] else [Coded(Modified(s))]
  }

  lemma FlushScans(s: seq<char16>, t: seq<byte>)
    requires Run(s)
    ensures Scan(Flush(s) + t, []) == FlushPieces(s) + Scan(t, []) && Apart(FlushPieces(s))
  {
    hide Scan, Flush, Modified;
    FlushDecodes(s, t);
  }

  lemma CharBetween(front: seq<Piece>, c: byte, ps: seq<Piece>)
    requires |front| <= 1 && (forall i :: 0 <= i < |front| ==> front[i] != Coded([])) && Apart(ps)
    ensures Apart(front + ([Char(c)] + ps))
  {
  }

  /** In an encoded name no base64 section follows another one directly, and none is empty. */
  lemma {:induction false} SectionsApart(s: seq<char16>, buffer: seq<char16>)
    requires Run(buffer)
    ensures Apart(Scan(EncodeLoop(s, buffer), []))
    decreases |s|
  {
    hide Scan, Flush, FlushPieces, Modified, Apart;
    if s == [] {
      FlushScans(buffer, []);
      assert Flush(buffer) + [] == Flush(buffer);
      NothingLeft();
      assert FlushPieces(buffer) + [] == FlushPieces(buffer);
    } else if Buffered(s[0]) {
      SectionsApart(s[1..], buffer + [s[0]]);
    } else {
      var c: byte := s[0];
      var rest := EncodeLoop(s[1..], []);
      var text := if c == AMP then [AMP, DASH] + rest else [c] + rest;
      SectionsApart(s[1..], []);
      FlushScans(buffer, text);
      if c == AMP { AmpDecodes(rest); } else { CharDecodes(c, rest); }
      assert EncodeLoop(s, buffer) == Flush(buffer) + text by {
        if c == AMP {
          assert Flush(buffer) + [AMP, DASH] + rest == Flush(buffer) + ([AMP, DASH] + rest);
        } else {
          assert Flush(buffer) + [c] + rest == Flush(buffer) + ([c] + rest);
        }
      }
      CharBetween(FlushPieces(buffer), c, Scan(rest, []));
    }
  }

  // ----- Encoded names are printable

  ghost predicate AllPrintable(t: seq<byte>) {
    forall i :: 0 <= i < |t| ==> 0x20 <= t[i] <= 0x7e
  }

  ghost predicate NoBlanks(s: seq<char16>) {
    forall i :: 0 <= i < |s| ==> !Blank(s[i])
  }

  lemma {:induction false} RunPrintable(s: seq<char16>, c: Coder)
    requires Run(s) && NoBlanks(s) && CoderOk(c)
    ensures AllPrintable(Encoded(s, c))
    decreases |s|
  {
    if s == [] {
      EncodeEnd(c);
      PadPrintable(c.value, c.count);
    } else {
      RunTail(s);
      BufferedUnits(s[0]);
      EncodeStep(s, c);
      FrontPrintable(s[0], c);
      hide Encoded, Front, Next;
      RunPrintable(s[1..], Next(s[0], c));
    }
  }

  lemma PadPrintable(value: nat, count: nat)
    requires count < 6 && value < Pow2(count)
    ensures AllPrintable(Pad(value, count))
  {
    if count > 0 { PadBelow(value, count); }
  }

  lemma FrontPrintable(u: char16, c: Coder)
    requires CoderOk(c) && Buffered(u) && !Blank(u)
    ensures AllPrintable(Front(u, c))
  {
    hide Pow2, Emit;
    BufferedUnits(u);
    Joined(c.value, c.count, u);
    EmitPrintable(c.value * 0x10000 + u, c.count + 16);
  }

  lemma {:induction false} EmitPrintable(value: nat, count: nat)
    requires value < Pow2(count)
    ensures AllPrintable(Emit(value, count).digits)
    decreases count
  {
    hide Pow2, High, Low;
    if count >= 6 {
      TopSix(value, count);
      EmitPrintable(Low(value, count - 6), count - 6);
    }
  }

  lemma FlushPrintable(s: seq<char16>)
    requires Run(s) && NoBlanks(s)
    ensures AllPrintable(Flush(s))
  {
    OutsideOk();
    RunPrintable(s, OUTSIDE);
    hide EncodeFrom;
    var e := Utf7.Encode(s);
    forall i | 0 <= i < |Modified(s)| ensures 0x20 <= Modified(s)[i] <= 0x7e { assert Inner(e)[i] == e[i + 1]; }
  }

  /** Without tabs, line feeds and carriage returns the encoded name is printable ASCII. */
  lemma {:induction false} NamePrintable(s: seq<char16>, buffer: seq<char16>)
    requires Run(buffer) && NoBlanks(buffer) && NoBlanks(s)
    ensures AllPrintable(EncodeLoop(s, buffer))
    decreases |s|
  {
    hide Flush;
    FlushPrintable(buffer);
    if s != [] {
      if Buffered(s[0]) {
        NamePrintable(s[1..], buffer + [s[0]]);
      } else {
        NamePrintable(s[1..], []);
      }
    }
  }
}
