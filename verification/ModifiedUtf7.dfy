/** IMAP mailbox names in modified UTF-7 (section 5.1.3 of RFC 3501). */
module ModifiedUtf7 {
  import opened Common
  import opened Utf7

  const AMP: byte := 38

  predicate Printable(u: int) {
    0x20 <= u <= 0x7e && u != AMP
  }

  /** Characters that wait in `_in` to be encoded together. */
  predicate Buffered(u: int) {
    !Printable(u) && u != AMP
  }

  /** Tab, line feed and carriage return: buffered, but left as they are by Python's codec. */
  predicate Blank(u: int) {
    u == 9 || u == 10 || u == 13
  }

  // ----- modified_utf7 and modified_deutf7

  /** `s.replace(from, to)` for single bytes. */
  function Swap(s: seq<byte>, from: byte, to: byte): (r: seq<byte>)
    ensures |r| == |s|
  {
    seq(|s|, i requires 0 <= i < |s| => if s[i] == from then to else s[i])
  }

  function Modified(s: seq<char16>): seq<byte> {
    Swap(Inner(Utf7.Encode(s)), SLASH, COMMA)
  }

  function Unmodified(s: seq<byte>): Result<seq<char16>, Utf7Error> {
    Utf7.Decode([PLUS] + Swap(s, COMMA, SLASH) + [DASH])
  }

  // ----- encode and decode

  function Flush(buffer: seq<char16>): seq<byte> {
    if buffer == [] then [] else [AMP] + Modified(buffer) + [DASH]
  }

  function EncodeLoop(s: seq<char16>, buffer: seq<char16>): seq<byte>
    decreases |s|
  {
    if s == [] then Flush(buffer)
    else if Printable(s[0]) then Flush(buffer) + [s[0]] + EncodeLoop(s[1..], [])
    else if s[0] == AMP then Flush(buffer) + [AMP, DASH] + EncodeLoop(s[1..], [])
    else EncodeLoop(s[1..], buffer + [s[0]])
  }

  function EncodeName(s: seq<char16>): seq<byte> {
    EncodeLoop(s, [])
  }

  function Join(a: Result<seq<char16>, Utf7Error>, b: Result<seq<char16>, Utf7Error>): Result<seq<char16>, Utf7Error> {
    if a.Err? then a else Then(a.value, b)
  }

  /** What a section stands for; an empty one is an ampersand. */
  function SectionValue(text: seq<byte>): Result<seq<char16>, Utf7Error> {
    if text == [] then Ok([AMP]) else Unmodified(text)
  }

  /** `buffer` is `_in`: empty outside a section, otherwise the ampersand and what followed it. */
  function DecodeLoop(t: seq<byte>, buffer: seq<byte>): Result<seq<char16>, Utf7Error>
    decreases |t|
  {
    if t == [] then (if buffer != [] then Unmodified(buffer[1..]) else Ok([]))
    else if t[0] == AMP && buffer == [] then DecodeLoop(t[1..], [AMP])
    else if t[0] == DASH && buffer != [] then Join(SectionValue(buffer[1..]), DecodeLoop(t[1..], []))
    else if buffer != [] then DecodeLoop(t[1..], buffer + [t[0]])
    else Then([t[0]], DecodeLoop(t[1..], []))
  }

  function DecodeName(t: seq<byte>): Result<seq<char16>, Utf7Error> {
    DecodeLoop(t, [])
  }

  // ----- The loops

  method EncodeFolderName(s: seq<char16>) returns (out: seq<byte>)
    ensures out == EncodeName(s)
  {
    hide Flush;
    out := [];
    var buffer: seq<char16> := [];
    assert s[0..] == s && [] + EncodeName(s) == EncodeName(s);
    for i := 0 to |s|
      invariant out + EncodeLoop(s[i..], buffer) == EncodeName(s)
    {
      var c := s[i];
      ghost var rest := s[i + 1..];
      assert s[i..][0] == c && s[i..][1..] == rest;
      if Printable(c) {
        assert out + (Flush(buffer) + [c] + EncodeLoop(rest, [])) == out + Flush(buffer) + [c] + EncodeLoop(rest, []);
        out := out + Flush(buffer);
        buffer := [];
        out := out + [c];
      } else if c == AMP {
        assert out + (Flush(buffer) + [AMP, DASH] + EncodeLoop(rest, []))
            == out + Flush(buffer) + [AMP, DASH] + EncodeLoop(rest, []);
        out := out + Flush(buffer);
        buffer := [];
        out := out + [AMP, DASH];
      } else {
        buffer := buffer + [c];
      }
    }
    out := out + Flush(buffer);
  }

  method DecodeFolderName(t: seq<byte>) returns (r: Result<seq<char16>, Utf7Error>)
    ensures r == DecodeName(t)
  {
    var out: seq<char16> := [];
    var buffer: seq<byte> := [];
    assert t[0..] == t;
    ThenThen([], [], DecodeName(t));
    for i := 0 to |t|
      invariant DecodeName(t) == Then(out, DecodeLoop(t[i..], buffer))
    {
      var c := t[i];
      ghost var rest := t[i + 1..];
      assert t[i..][0] == c && t[i..][1..] == rest;
      if c == AMP && buffer == [] {
        buffer := [c];
      } else if c == DASH && buffer != [] {
        if |buffer| == 1 {
          ThenThen(out, [AMP], DecodeLoop(rest, []));
          out := out + [AMP];
        } else {
          var section := Unmodified(buffer[1..]);
          if section.Err? { return section; }
          ThenThen(out, section.value, DecodeLoop(rest, []));
          out := out + section.value;
        }
        buffer := [];
      } else if buffer != [] {
        buffer := buffer + [c];
      } else {
        ThenThen(out, [c], DecodeLoop(rest, []));
        out := out + [c];
      }
    }
    if buffer != [] {
      var section := Unmodified(buffer[1..]);
      if section.Err? { return section; }
      return Ok(out + section.value);
    }
    assert out + [] == out;
    return Ok(out);
  }
}
