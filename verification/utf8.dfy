/**
 * UTF-8, as `String.getBytes(StandardCharsets.UTF_8)` produces it for strings
 * of Unicode scalar values (section 3 of RFC 3629): one to four bytes per
 * character, by code point range.
 */
module Utf8 {
  import opened Wrappers

  newtype byte = x: int | 0 <= x < 256

  predicate IsContinuation(b: byte) {
    0x80 <= b < 0xC0
  }

  function Continuation(v: int): (b: byte)
    requires 0 <= v
    ensures IsContinuation(b)
  {
    (0x80 + v % 64) as byte
  }

  /** The encoding of one character. */
  function EncodeChar(c: char): (r: seq<byte>)
    ensures 1 <= |r| <= 4
    ensures |r| == 1 <==> (c as int) < 0x80
    ensures forall k :: 1 <= k < |r| ==> IsContinuation(r[k])
  {
    var cp := c as int;
    if cp < 0x80 then [cp as byte]
    else if cp < 0x800 then [(0xC0 + cp / 64) as byte, Continuation(cp)]
    else if cp < 0x10000 then [(0xE0 + cp / 4096) as byte, Continuation(cp / 64), Continuation(cp)]
    else [(0xF0 + cp / 262144) as byte, Continuation(cp / 4096), Continuation(cp / 64), Continuation(cp)]
  }

  function Encode(s: string): (r: seq<byte>)
    ensures |s| <= |r| <= 4 * |s|
  {
    if |s| == 0 then [] else EncodeChar(s[0]) + Encode(s[1..])
  }

  /** How many bytes a sequence led by `b` spans, judged by the lead byte alone. */
  function SequenceLength(b: byte): nat {
    if b < 0x80 then 1 else if 0xC0 <= b < 0xE0 then 2 else if 0xE0 <= b < 0xF0 then 3
    else if 0xF0 <= b < 0xF8 then 4 else 0
  }

  function Payload(b: byte): int {
    b as int % 64
  }

  /** The least code point a sequence of `n` bytes may carry: anything below is overlong. */
  function MinCodePoint(n: nat): int {
    if n <= 1 then 0 else if n == 2 then 0x80 else if n == 3 then 0x800 else 0x1_0000
  }

  /** The code point of one well-led sequence; `None` when it is malformed, overlong or not a scalar value. */
  function DecodeOne(bytes: seq<byte>): (r: Option<char>)
    requires 1 <= |bytes| <= 4 && |bytes| == SequenceLength(bytes[0])
  {
    var b0 := bytes[0] as int;
    if exists k :: 1 <= k < |bytes| && !IsContinuation(bytes[k]) then None
    else
      var cp :=
        if |bytes| == 1 then b0
        else if |bytes| == 2 then (b0 - 0xC0) * 64 + Payload(bytes[1])
        else if |bytes| == 3 then (b0 - 0xE0) * 4096 + Payload(bytes[1]) * 64 + Payload(bytes[2])
        else (b0 - 0xF0) * 262144 + Payload(bytes[1]) * 4096 + Payload(bytes[2]) * 64 + Payload(bytes[3]);
      if cp < MinCodePoint(|bytes|) then None
      else if 0 <= cp < 0xD800 || 0xE000 <= cp < 0x11_0000 then Some(cp as char) else None
  }

  /** Decoding: the characters of well-formed input, `None` on anything else. */
  function Decode(bytes: seq<byte>): (r: Option<string>)
    decreases |bytes|
  {
    if |bytes| == 0 then Some("")
    else
      var n := SequenceLength(bytes[0]);
      if n == 0 || n > |bytes| then None
      else match DecodeOne(bytes[..n])
        case None => None
        case Some(c) =>
          match Decode(bytes[n..])
          case None => None
          case Some(rest) => Some([c] + rest)
  }
  /** An overlong form of U+0000 is not well-formed and does not decode. */
  lemma OverlongRefused()
    ensures Decode([0xC0, 0x80]) == None
  {
    assert [0xC0, 0x80][..2] == [0xC0 as byte, 0x80];
  }


  lemma DivModParts(cp: int, d: int)
    requires cp >= 0 && d > 0
    ensures cp == (cp / d) * d + cp % d && 0 <= cp % d < d
  {
  }

  lemma EncodeCharLead(c: char)
    ensures SequenceLength(EncodeChar(c)[0]) == |EncodeChar(c)|
  {
  }

  lemma TwoBytes(cp: int)
    requires 0x80 <= cp < 0x800
    ensures (cp / 64) * 64 + (0x80 + cp % 64) % 64 == cp
  {
    DivModParts(cp, 64);
  }

  lemma ThreeBytes(cp: int)
    requires 0x800 <= cp < 0x10000
    ensures (cp / 4096) * 4096 + ((0x80 + cp / 64 % 64) % 64) * 64 + (0x80 + cp % 64) % 64 == cp
  {
    DivModParts(cp, 64);
    DivModParts(cp / 64, 64);
    assert cp / 64 / 64 == cp / 4096;
  }

  lemma FourBytes(cp: int)
    requires 0x10000 <= cp < 0x11_0000
    ensures (cp / 262144) * 262144 + ((0x80 + cp / 4096 % 64) % 64) * 4096
            + ((0x80 + cp / 64 % 64) % 64) * 64 + (0x80 + cp % 64) % 64 == cp
  {
    DivModParts(cp, 64);
    DivModParts(cp / 64, 64);
    DivModParts(cp / 4096, 64);
    assert cp / 64 / 64 == cp / 4096;
    assert cp / 4096 / 64 == cp / 262144;
  }

  /** Each character's bytes decode back to it. */
  lemma DecodeEncodeChar(c: char)
    ensures DecodeOne(EncodeChar(c)) == Some(c)
  {
    var cp := c as int;
    var e := EncodeChar(c);
    EncodeCharLead(c);
    assert !exists k :: 1 <= k < |e| && !IsContinuation(e[k]);
    if cp < 0x80 {
    } else if cp < 0x800 {
      TwoBytes(cp);
      assert (e[0] as int - 0xC0) * 64 + Payload(e[1]) == cp;
    } else if cp < 0x10000 {
      ThreeBytes(cp);
      assert (e[0] as int - 0xE0) * 4096 + Payload(e[1]) * 64 + Payload(e[2]) == cp;
    } else {
      FourBytes(cp);
      assert (e[0] as int - 0xF0) * 262144 + Payload(e[1]) * 4096 + Payload(e[2]) * 64 + Payload(e[3]) == cp;
    }
  }

  /** Encoding then decoding gives the string back. */
  lemma {:induction false} DecodeEncode(s: string)
    ensures Decode(Encode(s)) == Some(s)
  {
    if |s| > 0 {
      var e := EncodeChar(s[0]);
      var bytes := Encode(s);
      assert bytes == e + Encode(s[1..]);
      EncodeCharLead(s[0]);
      assert bytes[..|e|] == e;
      assert bytes[|e|..] == Encode(s[1..]);
      DecodeEncodeChar(s[0]);
      DecodeEncode(s[1..]);
      assert s == [s[0]] + s[1..];
    }
  }

  /** Text of ASCII characters takes one byte per character. */
  lemma {:induction false} AsciiSize(s: string)
    requires forall k :: 0 <= k < |s| ==> (s[k] as int) < 0x80
    ensures |Encode(s)| == |s|
  {
    if |s| > 0 {
      AsciiSize(s[1..]);
    }
  }
}
