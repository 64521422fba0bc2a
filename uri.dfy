/**
 * `decodeURIComponent` as the filename parser uses it: every `%XY` escape is decoded, and
 * escapes of bytes >= 0x80 must together form one well-formed UTF-8 encoding (RFC 3629
 * section 3: no overlong forms, no surrogates, nothing above U+10FFFF).  A malformed
 * escape or byte sequence is the URIError the source catches, here `None`.
 * Characters are Unicode scalar values, so a decoded code point is one character.
 */
module Uri {
  import opened Wrappers

  /** The value of a hexadecimal digit (either case). */
  function HexValue(c: char): (r: Option<nat>)
    ensures r.Some? ==> r.value < 16
    ensures r.None? <==> !('0' <= c <= '9' || 'a' <= c <= 'f' || 'A' <= c <= 'F')
  {
    if '0' <= c <= '9' then Some(c as int - '0' as int)
    else if 'a' <= c <= 'f' then Some(c as int - 'a' as int + 10)
    else if 'A' <= c <= 'F' then Some(c as int - 'A' as int + 10)
    else None
  }

  /** The byte written as `%XY` at position k of s, if that is what stands there. */
  function EscapedByte(s: string, k: nat): (r: Option<nat>)
    ensures r.Some? ==> k + 3 <= |s| && s[k] == '%' && r.value < 256
  {
    if k + 3 <= |s| && s[k] == '%' && HexValue(s[k + 1]).Some? && HexValue(s[k + 2]).Some? then
      Some(16 * HexValue(s[k + 1]).value + HexValue(s[k + 2]).value)
    else None
  }

  /** The six payload bits of a continuation byte 10xxxxxx written as `%XY` at position k. */
  function ContinuationBits(s: string, k: nat): (r: Option<nat>)
    ensures r.Some? ==> k + 3 <= |s| && r.value < 64
  {
    match EscapedByte(s, k)
    case None => None
    case Some(b) => if 0x80 <= b < 0xC0 then Some(b - 0x80) else None
  }

  /** Number of leading 1 bits of a byte (at most 5 is distinguished). */
  function LeadingOnes(b: nat): nat
    requires b < 256
  {
    if b < 0x80 then 0 else if b < 0xC0 then 1 else if b < 0xE0 then 2 else if b < 0xF0 then 3
    else if b < 0xF8 then 4 else 5
  }

  predicate IsScalarValue(cp: int) {
    0 <= cp < 0xD800 || 0xE000 <= cp < 0x11_0000
  }

  /**
   * Decodes the escape sequence at the start of s (s[0] is '%'): the character and how many
   * characters of s it took, or None for a malformed escape or an invalid UTF-8 sequence.
   */
  function DecodeEscape(s: string): (r: Option<(char, nat)>)
    ensures r.Some? ==> 3 <= r.value.1 <= 12 && r.value.1 <= |s| && r.value.1 % 3 == 0
  {
    match EscapedByte(s, 0)
    case None => None
    case Some(b0) =>
      if b0 < 0x80 then Some((b0 as char, 3))
      else
        var n := LeadingOnes(b0);
        if n == 1 || n > 4 then None
        else match ContinuationBits(s, 3)
          case None => None
          case Some(c1) =>
            if n == 2 then
              var cp := (b0 - 0xC0) * 64 + c1;
              if 0x80 <= cp then Some((cp as char, 6)) else None
            else match ContinuationBits(s, 6)
              case None => None
              case Some(c2) =>
                if n == 3 then
                  var cp := (b0 - 0xE0) * 4096 + c1 * 64 + c2;
                  if 0x800 <= cp && IsScalarValue(cp) then Some((cp as char, 9)) else None
                else match ContinuationBits(s, 9)
                  case None => None
                  case Some(c3) =>
                    var cp := (b0 - 0xF0) * 262144 + c1 * 4096 + c2 * 64 + c3;
                    if 0x1_0000 <= cp < 0x11_0000 then Some((cp as char, 12)) else None
  }

  /** decodeURIComponent: None where the source's call throws URIError. */
  function Decode(s: string): (r: Option<string>)
    ensures r.Some? ==> |r.value| <= |s|
    ensures r.Some? && s != [] ==> r.value != []
    decreases |s|
  {
    if s == [] then Some([])
    else if s[0] != '%' then
      match Decode(s[1..])
      case None => None
      case Some(t) => Some([s[0]] + t)
    else
      match DecodeEscape(s)
      case None => None
      case Some((c, n)) =>
        match Decode(s[n..])
        case None => None
        case Some(t) => Some([c] + t)
  }

  /** Text without any '%' decodes to itself. */
  lemma {:induction false} DecodeWithoutEscapes(s: string)
    requires forall k :: 0 <= k < |s| ==> s[k] != '%'
    ensures Decode(s) == Some(s)
  {
    if s != [] {
      DecodeWithoutEscapes(s[1..]);
      assert [s[0]] + s[1..] == s;
    }
  }

  /** A '%' at position k that does not start a `%XY` escape. */
  predicate MalformedEscapeAt(s: string, k: nat)
    requires k < |s|
  {
    s[k] == '%' && (k + 3 > |s| || HexValue(s[k + 1]).None? || HexValue(s[k + 2]).None?)
  }

  /** A decoded escape sequence ends before any malformed '%' after its start. */
  lemma EscapeEndsBefore(s: string, k: nat)
    requires 0 < k < |s| && MalformedEscapeAt(s, k)
    requires DecodeEscape(s).Some?
    ensures DecodeEscape(s).value.1 <= k
  {
    var n := DecodeEscape(s).value.1;
    assert HexValue(s[1]).Some? && HexValue(s[2]).Some?;
    if n >= 6 {
      assert ContinuationBits(s, 3).Some?;
      assert HexValue(s[4]).Some? && HexValue(s[5]).Some?;
    }
    if n >= 9 {
      assert ContinuationBits(s, 6).Some?;
      assert HexValue(s[7]).Some? && HexValue(s[8]).Some?;
    }
    if n == 12 {
      assert ContinuationBits(s, 9).Some?;
      assert HexValue(s[10]).Some? && HexValue(s[11]).Some?;
    }
  }

  /** A '%' anywhere that is not followed by two hexadecimal digits makes decoding fail. */
  lemma {:induction false} LonePercentFails(s: string, k: nat)
    requires k < |s| && MalformedEscapeAt(s, k)
    ensures Decode(s) == None
    decreases |s|
  {
    if s[0] != '%' {
      LonePercentFails(s[1..], k - 1);
    } else if k > 0 && DecodeEscape(s).Some? {
      var n := DecodeEscape(s).value.1;
      EscapeEndsBefore(s, k);
      LonePercentFails(s[n..], k - n);
    }
  }

  // ---------------------------------------------------------------------------
  // The inverse direction: percent-encoding the UTF-8 bytes of every character.

  function HexDigit(d: nat): (c: char)
    requires d < 16
    ensures HexValue(c) == Some(d)
  {
    if d < 10 then ('0' as int + d) as char else ('A' as int + d - 10) as char
  }

  function Escape(b: nat): (e: string)
    requires b < 256
    ensures |e| == 3 && EscapedByte(e, 0) == Some(b)
  {
    ['%', HexDigit(b / 16), HexDigit(b % 16)]
  }

  /** The UTF-8 encoding of a character (RFC 3629 section 3). */
  function Utf8(c: char): (bytes: seq<nat>)
    ensures 1 <= |bytes| <= 4
    ensures forall k :: 0 <= k < |bytes| ==> bytes[k] < 256
  {
    var cp := c as int;
    if cp < 0x80 then [cp]
    else if cp < 0x800 then [0xC0 + cp / 64, 0x80 + cp % 64]
    else if cp < 0x1_0000 then [0xE0 + cp / 4096, 0x80 + (cp / 64) % 64, 0x80 + cp % 64]
    else [0xF0 + cp / 262144, 0x80 + (cp / 4096) % 64, 0x80 + (cp / 64) % 64, 0x80 + cp % 64]
  }

  function EscapeBytes(bytes: seq<nat>): (e: string)
    requires forall k :: 0 <= k < |bytes| ==> bytes[k] < 256
    ensures |e| == 3 * |bytes|
  {
    if bytes == [] then [] else Escape(bytes[0]) + EscapeBytes(bytes[1..])
  }

  /** Percent-encodes every character of s, as `%XY` escapes of its UTF-8 bytes. */
  function EncodeAll(s: string): (e: string)
  {
    if s == [] then [] else EscapeBytes(Utf8(s[0])) + EncodeAll(s[1..])
  }

  /** What stands at position |p| + j of p + t is what stands at position j of t. */
  lemma EscapedByteShift(p: string, t: string, j: nat)
    ensures EscapedByte(p + t, |p| + j) == EscapedByte(t, j)
  {
    var s := p + t;
    if j + 3 <= |t| {
      assert s[|p| + j] == t[j] && s[|p| + j + 1] == t[j + 1] && s[|p| + j + 2] == t[j + 2];
    }
  }

  lemma EscapedBytePrefix(p: string, t: string)
    requires |p| >= 3
    ensures EscapedByte(p + t, 0) == EscapedByte(p, 0)
  {
    var s := p + t;
    assert s[0] == p[0] && s[1] == p[1] && s[2] == p[2];
  }

  lemma {:induction false} EscapedByteInBytes(bytes: seq<nat>, rest: string, i: nat)
    requires forall k :: 0 <= k < |bytes| ==> bytes[k] < 256
    requires i < |bytes|
    ensures EscapedByte(EscapeBytes(bytes) + rest, 3 * i) == Some(bytes[i])
    decreases i
  {
    var e := Escape(bytes[0]);
    var tail := EscapeBytes(bytes[1..]) + rest;
    assert EscapeBytes(bytes) + rest == e + tail;
    if i == 0 {
      EscapedBytePrefix(e, tail);
    } else {
      EscapedByteInBytes(bytes[1..], rest, i - 1);
      EscapedByteShift(e, tail, 3 * (i - 1));
    }
  }

  lemma DecodeEscapeOfTwoByteChar(c: char, rest: string)
    requires 0x80 <= c as int < 0x800
    ensures DecodeEscape(EscapeBytes(Utf8(c)) + rest) == Some((c, 6))
  {
    var cp := c as int;
    var s := EscapeBytes(Utf8(c)) + rest;
    EscapedByteInBytes(Utf8(c), rest, 0);
    EscapedByteInBytes(Utf8(c), rest, 1);
    assert EscapedByte(s, 0) == Some(0xC0 + cp / 64);
    assert EscapedByte(s, 3) == Some(0x80 + cp % 64);
    assert (cp / 64) * 64 + cp % 64 == cp;
  }

  lemma SplitThree(cp: int)
    requires 0x800 <= cp < 0x1_0000
    ensures 0 <= cp / 4096 < 16 && 0 <= (cp / 64) % 64 < 64 && 0 <= cp % 64 < 64
    ensures (cp / 4096) * 4096 + ((cp / 64) % 64) * 64 + cp % 64 == cp
  {
  }

  lemma SplitFour(cp: int)
    requires 0x1_0000 <= cp < 0x11_0000
    ensures 0 <= cp / 262144 < 8 && 0 <= (cp / 4096) % 64 < 64 && 0 <= (cp / 64) % 64 < 64 && 0 <= cp % 64 < 64
    ensures (cp / 262144) * 262144 + ((cp / 4096) % 64) * 4096 + ((cp / 64) % 64) * 64 + cp % 64 == cp
  {
    var q1 := cp / 64;
    var q2 := q1 / 64;
    var q3 := q2 / 64;
    DivBy64Twice(cp);
    DivBy64Twice(q1);
    assert cp / 262144 == (cp / 4096) / 64 by { DivBy4096Then64(cp); }
    assert cp == q1 * 64 + cp % 64 && q1 == q2 * 64 + q1 % 64 && q2 == q3 * 64 + q2 % 64;
  }

  lemma DivBy64Twice(x: int)
    requires x >= 0
    ensures x / 4096 == (x / 64) / 64
  {
  }

  lemma DivBy4096Then64(x: int)
    requires x >= 0
    ensures x / 262144 == (x / 4096) / 64
  {
  }

  lemma DecodeEscapeOfThreeByteChar(c: char, rest: string)
    requires 0x800 <= c as int < 0x1_0000
    ensures DecodeEscape(EscapeBytes(Utf8(c)) + rest) == Some((c, 9))
  {
    var cp := c as int;
    var s := EscapeBytes(Utf8(c)) + rest;
    var hi, mid, lo := cp / 4096, (cp / 64) % 64, cp % 64;
    SplitThree(cp);
    assert Utf8(c) == [0xE0 + hi, 0x80 + mid, 0x80 + lo];
    EscapedByteInBytes(Utf8(c), rest, 0);
    EscapedByteInBytes(Utf8(c), rest, 1);
    EscapedByteInBytes(Utf8(c), rest, 2);
    assert ContinuationBits(s, 3) == Some(mid);
    assert ContinuationBits(s, 6) == Some(lo);
  }

  /** Where DecodeEscape finds each of four escaped bytes. */
  lemma FourEscapedBytes(bytes: seq<nat>, rest: string)
    requires |bytes| == 4 && forall k :: 0 <= k < 4 ==> bytes[k] < 256
    ensures var s := EscapeBytes(bytes) + rest;
            && EscapedByte(s, 0) == Some(bytes[0]) && EscapedByte(s, 3) == Some(bytes[1])
            && EscapedByte(s, 6) == Some(bytes[2]) && EscapedByte(s, 9) == Some(bytes[3])
  {
    EscapedByteInBytes(bytes, rest, 0);
    EscapedByteInBytes(bytes, rest, 1);
    EscapedByteInBytes(bytes, rest, 2);
    EscapedByteInBytes(bytes, rest, 3);
  }

  /** Decoding the escapes of a four-byte sequence 11110www 10xxxxxx 10yyyyyy 10zzzzzz. */
  lemma DecodeFourEscapedBytes(b0: nat, b1: nat, b2: nat, b3: nat, rest: string)
    requires b0 < 8 && b1 < 64 && b2 < 64 && b3 < 64
    requires 0x1_0000 <= b0 * 262144 + b1 * 4096 + b2 * 64 + b3 < 0x11_0000
    ensures DecodeEscape(EscapeBytes([0xF0 + b0, 0x80 + b1, 0x80 + b2, 0x80 + b3]) + rest)
            == Some(((b0 * 262144 + b1 * 4096 + b2 * 64 + b3) as char, 12))
  {
    var s := EscapeBytes([0xF0 + b0, 0x80 + b1, 0x80 + b2, 0x80 + b3]) + rest;
    FourEscapedBytes([0xF0 + b0, 0x80 + b1, 0x80 + b2, 0x80 + b3], rest);
    assert ContinuationBits(s, 3) == Some(b1);
    assert ContinuationBits(s, 6) == Some(b2);
    assert ContinuationBits(s, 9) == Some(b3);
    assert LeadingOnes(0xF0 + b0) == 4;
  }

  lemma DecodeEscapeOfFourByteChar(c: char, rest: string)
    requires 0x1_0000 <= c as int
    ensures DecodeEscape(EscapeBytes(Utf8(c)) + rest) == Some((c, 12))
  {
    var cp := c as int;
    var b0, b1, b2, b3 := cp / 262144, (cp / 4096) % 64, (cp / 64) % 64, cp % 64;
    SplitFour(cp);
    assert Utf8(c) == [0xF0 + b0, 0x80 + b1, 0x80 + b2, 0x80 + b3];
    DecodeFourEscapedBytes(b0, b1, b2, b3, rest);
  }

  /** Decoding the escapes of one character's UTF-8 bytes gives that character back. */
  lemma DecodeEscapeOfChar(c: char, rest: string)
    ensures DecodeEscape(EscapeBytes(Utf8(c)) + rest) == Some((c, 3 * |Utf8(c)|))
  {
    var cp := c as int;
    if cp < 0x80 {
      EscapedByteInBytes(Utf8(c), rest, 0);
    } else if cp < 0x800 {
      DecodeEscapeOfTwoByteChar(c, rest);
    } else if cp < 0x1_0000 {
      DecodeEscapeOfThreeByteChar(c, rest);
    } else {
      DecodeEscapeOfFourByteChar(c, rest);
    }
  }

  /** Round trip: decoding the full percent-encoding of any text gives the text back. */
  lemma {:induction false} DecodeEncodeAll(s: string)
    ensures Decode(EncodeAll(s)) == Some(s)
  {
    if s != [] {
      var e := EscapeBytes(Utf8(s[0]));
      var t := EncodeAll(s[1..]);
      DecodeEscapeOfChar(s[0], t);
      assert EncodeAll(s) == e + t;
      assert (e + t)[0] == '%' by { EscapedByteInBytes(Utf8(s[0]), t, 0); }
      assert (e + t)[|e|..] == t;
      DecodeEncodeAll(s[1..]);
      assert [s[0]] + s[1..] == s;
    }
  }

  lemma PercentTwentyIsSpace()
    ensures Decode("a%20b") == Some("a b")
  {
    assert EscapedByte("%20b", 0) == Some(32);
    assert "b"[1..] == [] && ['b'] + [] == "b";
    assert Decode("b") == Some("b");
    assert "%20b"[3..] == "b" && [' '] + "b" == " b";
    assert Decode("%20b") == Some(" b");
    assert "a%20b"[1..] == "%20b" && ['a'] + " b" == "a b";
  }

  lemma EuroSign()
    ensures Decode("%E2%82%AC") == Some("\U{20AC}")
  {
    var s := "%E2%82%AC";
    assert EscapedByte(s, 0) == Some(0xE2);
    assert EscapedByte(s, 3) == Some(0x82);
    assert EscapedByte(s, 6) == Some(0xAC);
    assert DecodeEscape(s) == Some(('\U{20AC}', 9));
    assert s[9..] == [] && ['\U{20AC}'] + [] == "\U{20AC}";
  }
}
