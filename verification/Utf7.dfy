/** UTF-7 (RFC 2152) over UTF-16 code units, bit by bit: Python's codec, that imap_utf7.py builds on. */
module Utf7 {
  import opened Common

  /** A UTF-16 code unit. */
  type char16 = u: int | 0 <= u < 0x10000 witness 0

  const PLUS: byte := 43
  const COMMA: byte := 44
  const DASH: byte := 45
  const SLASH: byte := 47

  function Pow2(n: nat): (p: nat)
    ensures p > 0
  {
    if n == 0 then 1 else 2 * Pow2(n - 1)
  }

  // ----- Base64 digits

  function ToBase64(d: nat): byte
    requires d < 64
  {
    if d < 26 then 65 + d else if d < 52 then 97 + d - 26 else if d < 62 then 48 + d - 52
    else if d == 62 then PLUS else SLASH
  }

  predicate IsBase64(b: int) {
    65 <= b <= 90 || 97 <= b <= 122 || 48 <= b <= 57 || b == PLUS || b == SLASH
  }

  function FromBase64(b: byte): (d: nat)
    requires IsBase64(b)
    ensures d < 64
  {
    if 65 <= b <= 90 then b - 65 else if 97 <= b <= 122 then b - 97 + 26 else if 48 <= b <= 57 then b - 48 + 52
    else if b == PLUS then 62 else 63
  }

  lemma DigitRoundTrip(d: nat)
    requires d < 64
    ensures IsBase64(ToBase64(d)) && FromBase64(ToBase64(d)) == d && ToBase64(d) != DASH
  {
  }

  // ----- Encoding

  /** The ASCII characters that stand for themselves. */
  predicate Direct(u: int) {
    u == 9 || u == 10 || u == 13 || (32 <= u <= 125 && u != PLUS && u != 92)
  }

  lemma DivBelow(v: nat, p: nat, k: nat)
    requires p > 0 && v < k * p
    ensures v / p < k
  {
  }

  lemma SixMore(n: nat)
    ensures Pow2(n + 6) == 64 * Pow2(n)
  {
    assert Pow2(n + 6) == 4 * Pow2(n + 4) && Pow2(n + 4) == 4 * Pow2(n + 2) && Pow2(n + 2) == 4 * Pow2(n);
  }

  lemma SixteenMore(n: nat)
    ensures Pow2(n + 16) == 0x10000 * Pow2(n)
  {
    SixMore(n);
    SixMore(n + 6);
    assert Pow2(n + 16) == 4 * Pow2(n + 14) && Pow2(n + 14) == 4 * Pow2(n + 12);
  }

  /** `v >> low`. */
  function High(v: nat, low: nat): nat {
    hide Pow2;
    Quotient(v, Pow2(low))
  }

  function Quotient(v: nat, p: nat): nat
    requires p > 0
  {
    v / p
  }

  /** `v & ((1 << low) - 1)`. */
  function Low(v: nat, low: nat): (r: nat)
    ensures r < Pow2(low)
  {
    v % Pow2(low)
  }

  /** The top six of `count` bits, and the top sixteen. */
  lemma TopSix(value: nat, count: nat)
    requires count >= 6 && value < Pow2(count)
    ensures High(value, count - 6) < 64
  {
    hide Pow2;
    SixMore(count - 6);
    DivBelow(value, Pow2(count - 6), 64);
  }

  lemma TopSixteen(value: nat, count: nat)
    requires count >= 16 && value < Pow2(count)
    ensures High(value, count - 16) < 0x10000
  {
    hide Pow2;
    SixteenMore(count - 16);
    DivBelow(value, Pow2(count - 16), 0x10000);
  }

  lemma OneDigitMore(value: nat, count: nat, digit: nat)
    requires value < Pow2(count) && digit < 64
    ensures value * 64 + digit < Pow2(count + 6)
  {
    hide Pow2;
    SixMore(count);
  }

  /** `count` bits with value `value`: six bits at a time go out, fewer than six are left. */
  datatype Emitted = Emitted(digits: seq<byte>, value: nat, count: nat)

  function Emit(value: nat, count: nat): (e: Emitted)
    requires value < Pow2(count)
    ensures e.count < 6 && e.value < Pow2(e.count)
    decreases count
  {
    hide Pow2, High, Low;
    if count < 6 then Emitted([], value, count)
    else
      TopSix(value, count);
      var rest := Emit(Low(value, count - 6), count - 6);
      rest.(digits := [ToBase64(High(value, count - 6))] + rest.digits)
  }

  /** The last digit of a section, filled up with zero bits. */
  function Pad(value: nat, count: nat): seq<byte>
    requires count < 6 && value < Pow2(count)
  {
    if count == 0 then []
    else
      assert value * Pow2(6 - count) < 64 by { PadBelow(value, count); }
      [ToBase64(value * Pow2(6 - count))]
  }

  lemma PadBelow(value: nat, count: nat)
    requires 0 < count < 6 && value < Pow2(count)
    ensures value * Pow2(6 - count) < 64
  {
    assert Pow2(1) == 2 && Pow2(2) == 4 && Pow2(3) == 8 && Pow2(4) == 16 && Pow2(5) == 32;
  }

  lemma Joined(value: nat, count: nat, u: char16)
    requires count < 6 && value < Pow2(count)
    ensures value * 0x10000 + u < Pow2(count + 16)
  {
    assert Pow2(16) == 65536 && Pow2(17) == 131072 && Pow2(18) == 262144;
    assert Pow2(19) == 524288 && Pow2(20) == 1048576 && Pow2(21) == 2097152;
    assert Pow2(1) == 2 && Pow2(2) == 4 && Pow2(3) == 8 && Pow2(4) == 16 && Pow2(5) == 32;
  }

  /** The encoder, inside a shifted section or not, with the bits that are waiting. */
  function EncodeFrom(s: seq<char16>, shift: bool, value: nat, count: nat): seq<byte>
    requires count < 6 && value < Pow2(count) && (!shift ==> count == 0)
    decreases |s|
  {
    if s == [] then Pad(value, count) + (if shift then [DASH] else [])
    else if Direct(s[0]) then
      Pad(value, count) + (if shift && (IsBase64(s[0]) || s[0] == DASH) then [DASH] else [])
      + [s[0]] + EncodeFrom(s[1..], false, 0, 0)
    else if !shift && s[0] == PLUS then [PLUS, DASH] + EncodeFrom(s[1..], false, 0, 0)
    else
      Joined(value, count, s[0]);
      var e := Emit(value * 0x10000 + s[0], count + 16);
      (if shift then [] else [PLUS]) + e.digits + EncodeFrom(s[1..], true, e.value, e.count)
  }

  function Encode(s: seq<char16>): seq<byte> {
    EncodeFrom(s, false, 0, 0)
  }

  // ----- Decoding

  datatype Utf7Error = PartialCharacter | NonZeroPadding | UnexpectedByte | UnterminatedShift

  /** Outside a shifted section, or inside with the bits that are waiting. */
  datatype Mode = Plain | Shifted(value: nat, count: nat)

  function Then(out: seq<char16>, r: Result<seq<char16>, Utf7Error>): Result<seq<char16>, Utf7Error> {
    match r
    case Err(e) => Err(e)
    case Ok(rest) => Ok(out + rest)
  }

  /** The units that a base64 digit completes, and the bits left over. */
  function Feed(value: nat, count: nat, digit: nat): (r: (seq<char16>, Mode))
    requires count < 16 && value < Pow2(count) && digit < 64
    ensures r.1.Shifted? && r.1.count < 16 && r.1.value < Pow2(r.1.count)
  {
    hide Pow2, High, Low;
    var v, n := value * 64 + digit, count + 6;
    OneDigitMore(value, count, digit);
    if n >= 16 then
      TopSixteen(v, n);
      ([High(v, n - 16)], Shifted(Low(v, n - 16), n - 16))
    else ([], Shifted(v, n))
  }

  function Leave(value: nat, count: nat): Option<Utf7Error> {
    if count >= 6 then Some(PartialCharacter) else if count > 0 && value != 0 then Some(NonZeroPadding) else None
  }

  predicate ModeOk(m: Mode) {
    m.Shifted? ==> m.count < 16 && m.value < Pow2(m.count)
  }

  function DecodeFrom(t: seq<byte>, m: Mode): Result<seq<char16>, Utf7Error>
    requires ModeOk(m)
    decreases |t|
  {
    if t == [] then
      if m.Shifted? && Leave(m.value, m.count).Some? then Err(UnterminatedShift) else Ok([])
    else if m.Shifted? then
      if IsBase64(t[0]) then
        var r := Feed(m.value, m.count, FromBase64(t[0]));
        Then(r.0, DecodeFrom(t[1..], r.1))
      else if Leave(m.value, m.count).Some? then Err(Leave(m.value, m.count).value)
      else Then(if t[0] == DASH then [] else [t[0]], DecodeFrom(t[1..], Plain))
    else if t[0] == PLUS then
      if |t| > 1 && t[1] == DASH then Then([PLUS], DecodeFrom(t[2..], Plain))
      else DecodeFrom(t[1..], Shifted(0, 0))
    else if t[0] > 127 then Err(UnexpectedByte)
    else Then([t[0]], DecodeFrom(t[1..], Plain))
  }

  function Decode(t: seq<byte>): Result<seq<char16>, Utf7Error> {
    DecodeFrom(t, Plain)
  }

  // ----- Round trip

  lemma Powers()
    ensures Pow2(0) == 1 && Pow2(2) == 4 && Pow2(4) == 16 && Pow2(6) == 64 && Pow2(8) == 256
    ensures Pow2(10) == 1024 && Pow2(12) == 4096 && Pow2(14) == 16384 && Pow2(16) == 65536
    ensures Pow2(18) == 262144 && Pow2(20) == 1048576
  {
  }

  lemma ThenThen(a: seq<char16>, b: seq<char16>, r: Result<seq<char16>, Utf7Error>)
    ensures Then(a, Then(b, r)) == Then(a + b, r) && Then([], r) == r
  {
    if r.Ok? { assert a + (b + r.value) == a + b + r.value && [] + r.value == r.value; }
  }

  lemma DecodeDigit(x: nat, t: seq<byte>, value: nat, count: nat)
    requires x < 64 && count < 16 && value < Pow2(count)
    ensures DecodeFrom([ToBase64(x)] + t, Shifted(value, count))
         == var r := Feed(value, count, x); Then(r.0, DecodeFrom(t, r.1))
  {
    DigitRoundTrip(x);
    assert ([ToBase64(x)] + t)[1..] == t && ([ToBase64(x)] + t)[0] == ToBase64(x);
  }

  /** Between units 0, 2 or 4 bits wait in the encoder. The decoder has the other bits of the last unit. */
  ghost predicate Matches(value: nat, count: nat, m: Mode) {
    && m.Shifted? && (count == 0 || count == 2 || count == 4) && value < Pow2(count)
    && (count == 0 ==> m == Shifted(0, 0))
    && (count > 0 ==> m.count == 16 - count && m.value < Pow2(16 - count))
  }

  lemma MatchesOk(value: nat, count: nat, m: Mode)
    requires Matches(value, count, m)
    ensures ModeOk(m)
  {
    Powers();
  }

  /** The unit whose last bits are still in the encoder. */
  ghost function Waiting(value: nat, count: nat, m: Mode): (r: seq<char16>)
    requires Matches(value, count, m)
  {
    Powers();
    if count == 0 then [] else if count == 2 then [m.value * 4 + value] else [m.value * 16 + value]
  }

  /** What the decoder has of `u` when `count` bits of it are still in the encoder. */
  ghost function Lag(u: char16, count: nat): Mode {
    if count == 2 then Shifted(u / 4, 14) else if count == 4 then Shifted(u / 16, 12) else Shifted(0, 0)
  }

  /** The six bits above a power of two. */
  lemma Middle(u: nat, p: nat)
    requires p == 4 || p == 16 || p == 64 || p == 256
    ensures u % (64 * p) / p == u / p % 64 && u % (64 * p) % p == u % p
  {
    if p == 4 { Middle4(u); } else if p == 16 { Middle16(u); } else if p == 64 { Middle64(u); } else { Middle256(u); }
  }

  lemma Middle4(u: nat)
    ensures u % 256 / 4 == u / 4 % 64 && u % 256 % 4 == u % 4
  {
    var q, r := u / 256, u % 256;
    assert u == 4 * (64 * q) + r && u / 4 == 64 * q + r / 4;
  }

  lemma Middle16(u: nat)
    ensures u % 1024 / 16 == u / 16 % 64 && u % 1024 % 16 == u % 16
  {
    var q, r := u / 1024, u % 1024;
    assert u == 16 * (64 * q) + r && u / 16 == 64 * q + r / 16;
  }

  lemma Middle64(u: nat)
    ensures u % 4096 / 64 == u / 64 % 64 && u % 4096 % 64 == u % 64
  {
    var q, r := u / 4096, u % 4096;
    assert u == 64 * (64 * q) + r && u / 64 == 64 * q + r / 64;
  }

  lemma Middle256(u: nat)
    ensures u % 16384 / 256 == u / 256 % 64 && u % 16384 % 256 == u % 256
  {
    var q, r := u / 16384, u % 16384;
    assert u == 256 * (64 * q) + r && u / 256 == 64 * q + r / 256;
  }

  lemma EmitAligned(u: char16)
    ensures u < Pow2(16)
    ensures Emit(u, 16) == Emitted([ToBase64(u / 1024), ToBase64(u / 16 % 64)], u % 16, 4)
  {
    Powers();
    hide Pow2, ToBase64;
    assert Emit(u % 16, 4) == Emitted([], u % 16, 4);
    Middle(u, 16);
    assert Emit(u % 1024, 10) == Emitted([ToBase64(u / 16 % 64)], u % 16, 4);
  }

  lemma EmitAfterFour(value: nat, u: char16)
    requires value < 16
    ensures value * 0x10000 + u < Pow2(20)
    ensures Emit(value * 0x10000 + u, 20)
         == Emitted([ToBase64(value * 4 + u / 16384), ToBase64(u / 256 % 64), ToBase64(u / 4 % 64)], u % 4, 2)
  {
    Powers();
    hide Pow2, ToBase64;
    var v := value * 0x10000 + u;
    assert v / 16384 == value * 4 + u / 16384;
    assert v % 16384 == u % 16384;
    EmitLow14(u);
  }

  lemma EmitLow14(u: char16)
    ensures u % 16384 < Pow2(14)
    ensures Emit(u % 16384, 14) == Emitted([ToBase64(u / 256 % 64), ToBase64(u / 4 % 64)], u % 4, 2)
  {
    Powers();
    hide Pow2, ToBase64;
    Middle(u, 256);
    Middle(u, 4);
    assert Emit(u % 4, 2) == Emitted([], u % 4, 2);
    assert Emit(u % 256, 8) == Emitted([ToBase64(u / 4 % 64)], u % 4, 2);
  }

  lemma EmitAfterTwo(value: nat, u: char16)
    requires value < 4
    ensures value * 0x10000 + u < Pow2(18)
    ensures Emit(value * 0x10000 + u, 18)
         == Emitted([ToBase64(value * 16 + u / 4096), ToBase64(u / 64 % 64), ToBase64(u % 64)], 0, 0)
  {
    Powers();
    hide Pow2, ToBase64;
    var v := value * 0x10000 + u;
    assert v / 4096 == value * 16 + u / 4096;
    assert v % 4096 == u % 4096;
    EmitLow12(u);
  }

  lemma EmitLow12(u: char16)
    ensures u % 4096 < Pow2(12)
    ensures Emit(u % 4096, 12) == Emitted([ToBase64(u / 64 % 64), ToBase64(u % 64)], 0, 0)
  {
    Powers();
    hide Pow2, ToBase64;
    Middle(u, 64);
    assert Emit(0, 0) == Emitted([], 0, 0);
    assert Emit(u % 64, 6) == Emitted([ToBase64(u % 64)], 0, 0);
  }

  /** Feeding the digits of one unit: the unit before is completed, and what is missing of this one waits. */
  ghost predicate UnitStep(value: nat, count: nat, u: char16, m: Mode, t: seq<byte>, e: Emitted)
    requires Matches(value, count, m) && ModeOk(m)
  {
    var m' := Lag(u, e.count);
    && Matches(e.value, e.count, m') && ModeOk(m')
    && Waiting(e.value, e.count, m') == (if e.count == 0 then [] else [u])
    && DecodeFrom(e.digits + t, m)
       == Then(Waiting(value, count, m) + (if e.count == 0 then [u] else []), DecodeFrom(t, m'))
  }

  lemma UnitDecodes(value: nat, count: nat, u: char16, m: Mode, t: seq<byte>)
    requires Matches(value, count, m)
    ensures ModeOk(m) && value * 0x10000 + u < Pow2(count + 16)
    ensures UnitStep(value, count, u, m, t, Emit(value * 0x10000 + u, count + 16))
  {
    MatchesOk(value, count, m);
    Powers();
    hide Pow2, Emit, UnitStep, Lag, ToBase64;
    if count == 0 {
      EmitAligned(u);
      StepAligned(u, t);
    } else if count == 4 {
      EmitAfterFour(value, u);
      StepAfterFour(value, u, m, t);
    } else {
      EmitAfterTwo(value, u);
      StepAfterTwo(value, u, m, t);
    }
  }

  lemma LagFour(u: char16)
    ensures Matches(u % 16, 4, Lag(u, 4)) && ModeOk(Lag(u, 4)) && Waiting(u % 16, 4, Lag(u, 4)) == [u]
  {
    Powers();
    hide Pow2;
    assert u / 16 * 16 + u % 16 == u;
  }

  lemma LagTwo(u: char16)
    ensures Matches(u % 4, 2, Lag(u, 2)) && ModeOk(Lag(u, 2)) && Waiting(u % 4, 2, Lag(u, 2)) == [u]
  {
    Powers();
    hide Pow2;
    assert u / 4 * 4 + u % 4 == u;
  }

  lemma StepAligned(u: char16, t: seq<byte>)
    ensures Matches(0, 0, Shifted(0, 0)) && ModeOk(Shifted(0, 0))
    ensures UnitStep(0, 0, u, Shifted(0, 0), t, Emitted([ToBase64(u / 1024), ToBase64(u / 16 % 64)], u % 16, 4))
  {
    hide DecodeFrom, Then, ToBase64;
    Powers();
    hide Pow2;
    FeedAligned(u, t);
    assert Waiting(0, 0, Shifted(0, 0)) + [] == [];
    LagFour(u);
  }

  lemma StepAfterFour(value: nat, u: char16, m: Mode, t: seq<byte>)
    requires Matches(value, 4, m)
    ensures value < 16 && ModeOk(m)
    ensures UnitStep(value, 4, u, m, t,
                     Emitted([ToBase64(value * 4 + u / 16384), ToBase64(u / 256 % 64), ToBase64(u / 4 % 64)], u % 4, 2))
  {
    hide DecodeFrom, Then, ToBase64;
    Powers();
    hide Pow2;
    FeedAfterFour(value, u, m.value, t);
    assert Waiting(value, 4, m) + [] == [m.value * 16 + value];
    LagTwo(u);
  }

  lemma StepAfterTwo(value: nat, u: char16, m: Mode, t: seq<byte>)
    requires Matches(value, 2, m)
    ensures value < 4 && ModeOk(m)
    ensures UnitStep(value, 2, u, m, t,
                     Emitted([ToBase64(value * 16 + u / 4096), ToBase64(u / 64 % 64), ToBase64(u % 64)], 0, 0))
  {
    hide DecodeFrom, Then, ToBase64;
    Powers();
    hide Pow2;
    FeedAfterTwo(value, u, m.value, t);
    assert Waiting(value, 2, m) + [u] == [m.value * 4 + value, u];
  }

  lemma TwoDigits(x: nat, y: nat, value: nat, count: nat, t: seq<byte>)
    requires x < 64 && y < 64 && count < 16 && value < Pow2(count)
    ensures var a := Feed(value, count, x);
            var b := Feed(a.1.value, a.1.count, y);
            DecodeFrom([ToBase64(x), ToBase64(y)] + t, Shifted(value, count)) == Then(a.0 + b.0, DecodeFrom(t, b.1))
  {
    hide Pow2, ToBase64, Feed;
    var a := Feed(value, count, x);
    var b := Feed(a.1.value, a.1.count, y);
    DecodeDigit(x, [ToBase64(y)] + t, value, count);
    assert [ToBase64(x)] + ([ToBase64(y)] + t) == [ToBase64(x), ToBase64(y)] + t;
    DecodeDigit(y, t, a.1.value, a.1.count);
    ThenThen(a.0, b.0, DecodeFrom(t, b.1));
  }

  lemma ThreeDigits(x: nat, y: nat, z: nat, value: nat, count: nat, t: seq<byte>)
    requires x < 64 && y < 64 && z < 64 && count < 16 && value < Pow2(count)
    ensures var a := Feed(value, count, x);
            var b := Feed(a.1.value, a.1.count, y);
            var c := Feed(b.1.value, b.1.count, z);
            DecodeFrom([ToBase64(x), ToBase64(y), ToBase64(z)] + t, Shifted(value, count))
            == Then(a.0 + b.0 + c.0, DecodeFrom(t, c.1))
  {
    hide Pow2, ToBase64, Feed;
    var a := Feed(value, count, x);
    var b := Feed(a.1.value, a.1.count, y);
    var c := Feed(b.1.value, b.1.count, z);
    TwoDigits(x, y, value, count, [ToBase64(z)] + t);
    assert [ToBase64(x), ToBase64(y)] + ([ToBase64(z)] + t) == [ToBase64(x), ToBase64(y), ToBase64(z)] + t;
    DecodeDigit(z, t, b.1.value, b.1.count);
    ThenThen(a.0 + b.0, c.0, DecodeFrom(t, c.1));
  }

  lemma FeedAligned(u: char16, t: seq<byte>)
    ensures Pow2(0) == 1 && Pow2(12) == 4096 && u / 16 < 4096
    ensures DecodeFrom([ToBase64(u / 1024), ToBase64(u / 16 % 64)] + t, Shifted(0, 0))
         == Then([], DecodeFrom(t, Shifted(u / 16, 12)))
  {
    Powers();
    hide Pow2, ToBase64, DecodeFrom, Then;
    TwoDigits(u / 1024, u / 16 % 64, 0, 0, t);
    assert Feed(0, 0, u / 1024) == ([], Shifted(u / 1024, 6));
    assert u / 1024 * 64 + u / 16 % 64 == u / 16;
    assert Feed(u / 1024, 6, u / 16 % 64) == ([], Shifted(u / 16, 12));
    assert Feed(0, 0, u / 1024).0 + Feed(u / 1024, 6, u / 16 % 64).0 == [];
  }

  lemma FeedAfterFour(value: nat, u: char16, w: nat, t: seq<byte>)
    requires value < 16 && w < 4096
    ensures Pow2(12) == 4096 && Pow2(14) == 16384 && u / 4 < 16384
    ensures DecodeFrom([ToBase64(value * 4 + u / 16384), ToBase64(u / 256 % 64), ToBase64(u / 4 % 64)] + t,
                       Shifted(w, 12))
         == Then([w * 16 + value], DecodeFrom(t, Shifted(u / 4, 14)))
  {
    Powers();
    hide Pow2, ToBase64, DecodeFrom, Then;
    ThreeDigits(value * 4 + u / 16384, u / 256 % 64, u / 4 % 64, w, 12, t);
    var x := w * 64 + (value * 4 + u / 16384);
    assert x / 4 == w * 16 + value && x % 4 == u / 16384;
    assert Feed(w, 12, value * 4 + u / 16384) == ([w * 16 + value], Shifted(u / 16384, 2));
    assert u / 16384 * 64 + u / 256 % 64 == u / 256;
    assert Feed(u / 16384, 2, u / 256 % 64) == ([], Shifted(u / 256, 8));
    assert u / 256 * 64 + u / 4 % 64 == u / 4;
    assert Feed(u / 256, 8, u / 4 % 64) == ([], Shifted(u / 4, 14));
    assert [w * 16 + value] + [] + [] == [w * 16 + value];
  }

  lemma FeedAfterTwo(value: nat, u: char16, w: nat, t: seq<byte>)
    requires value < 4 && w < 16384
    ensures Pow2(14) == 16384
    ensures Pow2(0) == 1
    ensures DecodeFrom([ToBase64(value * 16 + u / 4096), ToBase64(u / 64 % 64), ToBase64(u % 64)] + t, Shifted(w, 14))
         == Then([w * 4 + value, u], DecodeFrom(t, Shifted(0, 0)))
  {
    Powers();
    hide Pow2, ToBase64, DecodeFrom, Then;
    ThreeDigits(value * 16 + u / 4096, u / 64 % 64, u % 64, w, 14, t);
    var x := w * 64 + (value * 16 + u / 4096);
    assert x / 16 == w * 4 + value && x % 16 == u / 4096;
    assert Feed(w, 14, value * 16 + u / 4096) == ([w * 4 + value], Shifted(u / 4096, 4));
    assert u / 4096 * 64 + u / 64 % 64 == u / 64;
    assert Feed(u / 4096, 4, u / 64 % 64) == ([], Shifted(u / 64, 10));
    assert u / 64 * 64 + u % 64 == u;
    assert Feed(u / 64, 10, u % 64) == ([u], Shifted(0, 0));
    assert [w * 4 + value] + [] + [u] == [w * 4 + value, u];
  }

  // ----- The end of a section, and characters outside

  lemma PadDecodes(value: nat, count: nat, m: Mode, t: seq<byte>)
    requires Matches(value, count, m)
    ensures ModeOk(m) && Pow2(0) == 1
    ensures var left := Shifted(0, if count == 0 then 0 else 6 - count);
            ModeOk(left) && DecodeFrom(Pad(value, count) + t, m) == Then(Waiting(value, count, m), DecodeFrom(t, left))
  {
    MatchesOk(value, count, m);
    Powers();
    hide Pow2, ToBase64, DecodeFrom, Then;
    if count == 0 {
      assert Pad(value, count) + t == t;
      ThenThen([], [], DecodeFrom(t, Shifted(0, 0)));
    } else if count == 2 {
      PadAfterTwo(value, m, t);
    } else {
      PadAfterFour(value, m, t);
    }
  }

  lemma PadAfterTwo(value: nat, m: Mode, t: seq<byte>)
    requires Matches(value, 2, m) && ModeOk(m)
    ensures ModeOk(Shifted(0, 4))
    ensures DecodeFrom(Pad(value, 2) + t, m) == Then(Waiting(value, 2, m), DecodeFrom(t, Shifted(0, 4)))
  {
    Powers();
    hide Pow2, ToBase64, DecodeFrom, Then;
    DecodeDigit(value * 16, t, m.value, 14);
    var x := m.value * 64 + value * 16;
    assert x / 16 == m.value * 4 + value && x % 16 == 0;
    assert Feed(m.value, 14, value * 16) == ([m.value * 4 + value], Shifted(0, 4));
  }

  lemma PadAfterFour(value: nat, m: Mode, t: seq<byte>)
    requires Matches(value, 4, m) && ModeOk(m)
    ensures ModeOk(Shifted(0, 2))
    ensures DecodeFrom(Pad(value, 4) + t, m) == Then(Waiting(value, 4, m), DecodeFrom(t, Shifted(0, 2)))
  {
    Powers();
    hide Pow2, ToBase64, DecodeFrom, Then;
    DecodeDigit(value * 4, t, m.value, 12);
    var x := m.value * 64 + value * 4;
    assert x / 4 == m.value * 16 + value && x % 4 == 0;
    assert Feed(m.value, 12, value * 4) == ([m.value * 16 + value], Shifted(0, 2));
  }

  /** A section ends cleanly at any byte that is not a base64 digit; a dash is absorbed. */
  lemma LeaveSection(value: nat, count: nat, m: Mode, b: byte, t: seq<byte>)
    requires Matches(value, count, m) && !IsBase64(b)
    ensures ModeOk(m)
    ensures DecodeFrom(Pad(value, count) + ([b] + t), m)
         == Then(Waiting(value, count, m) + (if b == DASH then [] else [b]), DecodeFrom(t, Plain))
  {
    PadDecodes(value, count, m, [b] + t);
    var left := Shifted(0, if count == 0 then 0 else 6 - count);
    assert DecodeFrom([b] + t, left) == Then(if b == DASH then [] else [b], DecodeFrom(t, Plain)) by {
      assert ([b] + t)[0] == b && ([b] + t)[1..] == t;
    }
    ThenThen(Waiting(value, count, m), if b == DASH then [] else [b], DecodeFrom(t, Plain));
  }

  lemma PlainChar(b: byte, t: seq<byte>)
    requires b <= 127 && b != PLUS
    ensures DecodeFrom([b] + t, Plain) == Then([b], DecodeFrom(t, Plain))
  {
    assert ([b] + t)[0] == b && ([b] + t)[1..] == t;
  }

  lemma PlainPlus(t: seq<byte>)
    ensures DecodeFrom([PLUS, DASH] + t, Plain) == Then([PLUS], DecodeFrom(t, Plain))
  {
    assert ([PLUS, DASH] + t)[0] == PLUS && ([PLUS, DASH] + t)[1] == DASH && ([PLUS, DASH] + t)[2..] == t;
  }

  lemma EnterSection(t: seq<byte>)
    requires t == [] || t[0] != DASH
    ensures ModeOk(Shifted(0, 0)) && DecodeFrom([PLUS] + t, Plain) == DecodeFrom(t, Shifted(0, 0))
  {
    assert Pow2(0) == 1;
    assert ([PLUS] + t)[0] == PLUS && ([PLUS] + t)[1..] == t;
  }

  lemma FirstDigit(value: nat, count: nat)
    requires count >= 6 && value < Pow2(count)
    ensures Emit(value, count).digits != [] && Emit(value, count).digits[0] != DASH
  {
  }

  /** Encoder and decoder states that belong together. */
  ghost predicate Together(shift: bool, value: nat, count: nat, m: Mode) {
    if shift then Matches(value, count, m) else value == 0 && count == 0 && m == Plain
  }

  ghost function Pending(shift: bool, value: nat, count: nat, m: Mode): seq<char16>
    requires Together(shift, value, count, m)
  {
    if shift then Waiting(value, count, m) else []
  }

  lemma TogetherOk(shift: bool, value: nat, count: nat, m: Mode)
    requires Together(shift, value, count, m)
    ensures ModeOk(m) && count < 6 && value < Pow2(count) && (!shift ==> count == 0)
  {
    Powers();
    if shift { MatchesOk(value, count, m); }
  }

  ghost predicate Decodes(s: seq<char16>, shift: bool, value: nat, count: nat, m: Mode, t: seq<byte>)
    requires Together(shift, value, count, m)
  {
    TogetherOk(shift, value, count, m);
    DecodeFrom(EncodeFrom(s, shift, value, count) + t, m)
    == Then(Pending(shift, value, count, m) + s, DecodeFrom(t, Plain))
  }

  lemma DecodesEnd(shift: bool, value: nat, count: nat, m: Mode, t: seq<byte>)
    requires Together(shift, value, count, m)
    ensures Decodes([], shift, value, count, m, t)
  {
    hide EncodeFrom, DecodeFrom, Then, Matches, Waiting, Pad, Pow2, ModeOk, IsBase64;
    TogetherOk(shift, value, count, m);
    EncodeEnd(shift, value, count);
    DashIsNoDigit();
    if shift {
      LeaveSection(value, count, m, DASH, t);
      assert Pad(value, count) + [DASH] + t == Pad(value, count) + ([DASH] + t);
    } else {
      assert [] + t == t;
      ThenThen([], [], DecodeFrom(t, Plain));
    }
    assert Pending(shift, value, count, m) + [] == Pending(shift, value, count, m);
  }

  lemma DashIsNoDigit()
    ensures !IsBase64(DASH)
  {
  }

  lemma EncodeEnd(shift: bool, value: nat, count: nat)
    requires count < 6 && value < Pow2(count) && (!shift ==> count == 0)
    ensures EncodeFrom([], shift, value, count) == if shift then Pad(value, count) + [DASH] else []
  {
  }

  /** What the encoder writes for a direct character, after the bits that wait. */
  ghost function DirectText(c: byte, shift: bool, rest: seq<byte>): seq<byte> {
    if shift && (IsBase64(c) || c == DASH) then [DASH] + ([c] + rest) else [c] + rest
  }

  lemma DirectStep(c: byte, shift: bool, value: nat, count: nat, m: Mode, rest: seq<byte>)
    requires Together(shift, value, count, m) && Direct(c)
    ensures ModeOk(m) && count < 6 && value < Pow2(count)
    ensures DecodeFrom(Pad(value, count) + DirectText(c, shift, rest), m)
         == Then(Pending(shift, value, count, m) + [c], DecodeFrom(rest, Plain))
  {
    TogetherOk(shift, value, count, m);
    assert !shift ==> Pad(value, count) + ([c] + rest) == [c] + rest;
    hide DecodeFrom, Pad, Pow2, Then;
    if shift && (IsBase64(c) || c == DASH) {
      LeaveSection(value, count, m, DASH, [c] + rest);
      PlainChar(c, rest);
      assert Waiting(value, count, m) + [] == Waiting(value, count, m);
      ThenThen(Waiting(value, count, m), [c], DecodeFrom(rest, Plain));
    } else if shift {
      LeaveSection(value, count, m, c, rest);
    } else {
      PlainChar(c, rest);
      assert [] + [c] == [c];
    }
  }

  lemma EncodeDirect(s: seq<char16>, shift: bool, value: nat, count: nat, t: seq<byte>)
    requires count < 6 && value < Pow2(count) && (!shift ==> count == 0) && s != [] && Direct(s[0])
    ensures EncodeFrom(s, shift, value, count) + t
         == Pad(value, count) + DirectText(s[0], shift, EncodeFrom(s[1..], false, 0, 0) + t)
  {
    hide Pad, Pow2, IsBase64;
    assert 0 < Pow2(0);
    var c: byte := s[0];
    var dash := if shift && (IsBase64(c) || c == DASH) then [DASH] else [];
    var rest := EncodeFrom(s[1..], false, 0, 0);
    assert EncodeFrom(s, shift, value, count) == Pad(value, count) + dash + [c] + rest;
    hide EncodeFrom;
    Associate(Pad(value, count), dash, [c], rest, t);
    assert dash == [] ==> dash + ([c] + (rest + t)) == [c] + (rest + t);
  }

  lemma Associate(a: seq<byte>, b: seq<byte>, c: seq<byte>, d: seq<byte>, e: seq<byte>)
    ensures a + b + c + d + e == a + (b + (c + (d + e)))
  {
  }

  lemma DecodesDirect(s: seq<char16>, shift: bool, value: nat, count: nat, m: Mode, t: seq<byte>)
    requires Together(shift, value, count, m) && s != [] && Direct(s[0])
    requires Together(false, 0, 0, Plain) && Decodes(s[1..], false, 0, 0, Plain, t)
    ensures Decodes(s, shift, value, count, m, t)
  {
    hide EncodeFrom, DecodeFrom, Then, Together, ModeOk, Pow2, Pad, DirectText, Direct;
    TogetherOk(shift, value, count, m);
    TogetherOk(false, 0, 0, Plain);
    var c: byte := DirectByte(s[0]);
    EncodeDirect(s, shift, value, count, t);
    DirectStep(c, shift, value, count, m, EncodeFrom(s[1..], false, 0, 0) + t);
    Conclude(Pending(shift, value, count, m), [c], [], s, DecodeFrom(t, Plain));
  }

  function DirectByte(u: char16): (b: byte)
    requires Direct(u)
    ensures b == u
  {
    u
  }

  lemma DecodesPlus(s: seq<char16>, t: seq<byte>)
    requires s != [] && s[0] == PLUS
    requires Together(false, 0, 0, Plain) && Decodes(s[1..], false, 0, 0, Plain, t)
    ensures Decodes(s, false, 0, 0, Plain, t)
  {
    hide EncodeFrom, DecodeFrom, Then, Matches, Waiting;
    var rest, after := EncodeFrom(s[1..], false, 0, 0), DecodeFrom(t, Plain);
    assert Pending(false, 0, 0, Plain) + s[1..] == s[1..] && Pending(false, 0, 0, Plain) + s == s;
    EncodePlus(s);
    assert [PLUS, DASH] + rest + t == [PLUS, DASH] + (rest + t);
    PlainPlus(rest + t);
    ThenThen([PLUS], s[1..], after);
    assert [PLUS] + s[1..] == s;
  }

  lemma EncodePlus(s: seq<char16>)
    requires s != [] && s[0] == PLUS
    ensures EncodeFrom(s, false, 0, 0) == [PLUS, DASH] + EncodeFrom(s[1..], false, 0, 0)
  {
  }

  ghost function Done(u: char16, e: Emitted): seq<char16> {
    if e.count == 0 then [u] else []
  }

  lemma UnitFromAnywhere(u: char16, shift: bool, value: nat, count: nat, m: Mode, rest: seq<byte>)
    requires Together(shift, value, count, m)
    ensures ModeOk(m) && value * 0x10000 + u < Pow2(count + 16)
    ensures var e := Emit(value * 0x10000 + u, count + 16);
            && Together(true, e.value, e.count, Lag(u, e.count)) && ModeOk(Lag(u, e.count))
            && Pending(true, e.value, e.count, Lag(u, e.count)) == (if e.count == 0 then [] else [u])
            && DecodeFrom((if shift then [] else [PLUS]) + (e.digits + rest), m)
               == Then(Pending(shift, value, count, m) + Done(u, e), DecodeFrom(rest, Lag(u, e.count)))
  {
    hide *;
    if shift {
      UnitInSection(u, value, count, m, rest);
    } else {
      UnitAtStart(u, value, count, m, rest);
    }
  }

  lemma UnitInSection(u: char16, value: nat, count: nat, m: Mode, rest: seq<byte>)
    requires Together(true, value, count, m)
    ensures ModeOk(m) && value * 0x10000 + u < Pow2(count + 16)
    ensures var e := Emit(value * 0x10000 + u, count + 16);
            && Together(true, e.value, e.count, Lag(u, e.count)) && ModeOk(Lag(u, e.count))
            && Pending(true, e.value, e.count, Lag(u, e.count)) == (if e.count == 0 then [] else [u])
            && DecodeFrom([] + (e.digits + rest), m)
               == Then(Pending(true, value, count, m) + Done(u, e), DecodeFrom(rest, Lag(u, e.count)))
  {
    UnitDecodes(value, count, u, m, rest);
    hide DecodeFrom, Then, Emit, Lag, Pow2;
    var e := Emit(value * 0x10000 + u, count + 16);
    assert [] + (e.digits + rest) == e.digits + rest;
  }

  lemma UnitAtStart(u: char16, value: nat, count: nat, m: Mode, rest: seq<byte>)
    requires Together(false, value, count, m)
    ensures ModeOk(m) && value * 0x10000 + u < Pow2(count + 16)
    ensures var e := Emit(value * 0x10000 + u, count + 16);
            && Together(true, e.value, e.count, Lag(u, e.count)) && ModeOk(Lag(u, e.count))
            && Pending(true, e.value, e.count, Lag(u, e.count)) == (if e.count == 0 then [] else [u])
            && DecodeFrom([PLUS] + (e.digits + rest), m)
               == Then(Pending(false, value, count, m) + Done(u, e), DecodeFrom(rest, Lag(u, e.count)))
  {
    hide *;
    AtStart(value, count, m);
    UnitInSection(u, 0, 0, Shifted(0, 0), rest);
    FirstDigit(u, 16);
    var e := Emit(u, 16);
    assert [] + (e.digits + rest) == e.digits + rest;
    assert (e.digits + rest)[0] == e.digits[0];
    EnterSection(e.digits + rest);
  }

  lemma AtStart(value: nat, count: nat, m: Mode)
    requires Together(false, value, count, m)
    ensures value == 0 && count == 0 && m == Plain && Pending(false, value, count, m) == [] && ModeOk(m)
    ensures Together(true, 0, 0, Shifted(0, 0)) && Pending(true, 0, 0, Shifted(0, 0)) == []
  {
    Powers();
  }

  lemma EncodeUnit(s: seq<char16>, shift: bool, value: nat, count: nat, t: seq<byte>)
    requires count < 6 && value < Pow2(count) && (!shift ==> count == 0) && s != []
    requires !Direct(s[0]) && (shift || s[0] != PLUS)
    ensures value * 0x10000 + s[0] < Pow2(count + 16)
    ensures var e := Emit(value * 0x10000 + s[0], count + 16);
            EncodeFrom(s, shift, value, count) + t
            == (if shift then [] else [PLUS]) + (e.digits + (EncodeFrom(s[1..], true, e.value, e.count) + t))
  {
    hide Pad, Direct, Pow2, Emit;
    Joined(value, count, s[0]);
    var e := Emit(value * 0x10000 + s[0], count + 16);
    var shiftIn, rest := if shift then [] else [PLUS], EncodeFrom(s[1..], true, e.value, e.count);
    assert EncodeFrom(s, shift, value, count) == shiftIn + e.digits + rest;
    hide EncodeFrom;
    assert shiftIn + e.digits + rest + t == shiftIn + (e.digits + (rest + t));
  }

  lemma UnitThen(s: seq<char16>, shift: bool, value: nat, count: nat, m: Mode, rest: seq<byte>,
                 after: Result<seq<char16>, Utf7Error>, e: Emitted, m': Mode)
    requires Together(shift, value, count, m) && s != [] && ModeOk(m) && value * 0x10000 + s[0] < Pow2(count + 16)
    requires e == Emit(value * 0x10000 + s[0], count + 16) && m' == Lag(s[0], e.count)
    requires Together(true, e.value, e.count, m') && ModeOk(m')
    requires DecodeFrom(rest, m') == Then(Pending(true, e.value, e.count, m') + s[1..], after)
    ensures DecodeFrom((if shift then [] else [PLUS]) + (e.digits + rest), m)
         == Then(Pending(shift, value, count, m) + s, after)
  {
    hide EncodeFrom, DecodeFrom, Then, Together, ModeOk, Pow2, Emit, Lag, Pending, Matches, Waiting;
    UnitFromAnywhere(s[0], shift, value, count, m, rest);
    assert Done(s[0], e) + Pending(true, e.value, e.count, m') == [s[0]];
    Conclude(Pending(shift, value, count, m), Done(s[0], e), Pending(true, e.value, e.count, m'), s, after);
  }

  lemma DecodesUnit(s: seq<char16>, shift: bool, value: nat, count: nat, m: Mode, t: seq<byte>, e: Emitted)
    requires Together(shift, value, count, m) && s != [] && !Direct(s[0]) && (shift || s[0] != PLUS)
    requires value * 0x10000 + s[0] < Pow2(count + 16) && e == Emit(value * 0x10000 + s[0], count + 16)
    requires Together(true, e.value, e.count, Lag(s[0], e.count))
    requires Decodes(s[1..], true, e.value, e.count, Lag(s[0], e.count), t)
    ensures Decodes(s, shift, value, count, m, t)
  {
    hide EncodeFrom, DecodeFrom, Then, Together, ModeOk, Pow2, Emit, Lag, Pending, Matches, Waiting, Direct;
    TogetherOk(shift, value, count, m);
    TogetherOk(true, e.value, e.count, Lag(s[0], e.count));
    EncodeUnit(s, shift, value, count, t);
    PlainOk();
    UnitThen(s, shift, value, count, m, EncodeFrom(s[1..], true, e.value, e.count) + t, DecodeFrom(t, Plain),
             e, Lag(s[0], e.count));
  }

  lemma PlainOk()
    ensures ModeOk(Plain)
  {
  }

  lemma Conclude(p: seq<char16>, d: seq<char16>, p': seq<char16>, s: seq<char16>, after: Result<seq<char16>, Utf7Error>)
    requires s != [] && d + p' == [s[0]]
    ensures Then(p + d, Then(p' + s[1..], after)) == Then(p + s, after)
  {
    ThenThen(p + d, p' + s[1..], after);
    Regroup(p, d, p', s);
  }

  lemma Regroup(p: seq<char16>, d: seq<char16>, p': seq<char16>, s: seq<char16>)
    requires s != [] && d + p' == [s[0]]
    ensures p + d + (p' + s[1..]) == p + s
  {
    assert p + d + (p' + s[1..]) == p + (d + p') + s[1..];
  }

  /** Decoding what was encoded, for every string of code units, with any text behind it. */
  lemma {:induction false} RoundTrip(s: seq<char16>, shift: bool, value: nat, count: nat, m: Mode, t: seq<byte>)
    requires Together(shift, value, count, m)
    ensures Decodes(s, shift, value, count, m, t)
    decreases |s|
  {
    hide *;
    TogetherOk(shift, value, count, m);
    PlainTogether();
    if s == [] {
      DecodesEnd(shift, value, count, m, t);
    } else if Direct(s[0]) {
      RoundTrip(s[1..], false, 0, 0, Plain, t);
      DecodesDirect(s, shift, value, count, m, t);
    } else if !shift && s[0] == PLUS {
      AtStart(value, count, m);
      RoundTrip(s[1..], false, 0, 0, Plain, t);
      DecodesPlus(s, t);
    } else {
      UnitFromAnywhere(s[0], shift, value, count, m, t);
      var e := Emit(value * 0x10000 + s[0], count + 16);
      RoundTrip(s[1..], true, e.value, e.count, Lag(s[0], e.count), t);
      DecodesUnit(s, shift, value, count, m, t, e);
    }
  }

  lemma PlainTogether()
    ensures Together(false, 0, 0, Plain)
  {
  }

  lemma EncodeThenDecode(s: seq<char16>, t: seq<byte>)
    ensures DecodeFrom(Encode(s) + t, Plain) == Then(s, DecodeFrom(t, Plain))
  {
    hide DecodeFrom, EncodeFrom;
    RoundTrip(s, false, 0, 0, Plain, t);
    assert [] + s == s;
  }

  /** UTF-7 loses nothing. */
  lemma CodecRoundTrip(s: seq<char16>)
    ensures Decode(Encode(s)) == Ok(s)
  {
    EncodeThenDecode(s, []);
    assert Encode(s) + [] == Encode(s) && s + [] == s;
  }
}
