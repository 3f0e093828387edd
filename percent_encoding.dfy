/**
 * `encodeURIComponent` (ECMA-262, section 19.2.6.5) and its inverse
 * `decodeURIComponent`: every character outside the unreserved set (letters, digits
 * and `-_.!~*'()`) is written as the UTF-8 bytes of its code point, each as `%` and
 * two upper-case hexadecimal digits, in the form of section 2.1 of RFC 3986.
 */
module PercentEncoding {
  import opened Wrappers

  predicate IsAlphaNumeric(c: char) {
    ('A' <= c <= 'Z') || ('a' <= c <= 'z') || ('0' <= c <= '9')
  }

  /** The characters `encodeURIComponent` leaves as they are. */
  predicate Unreserved(c: char) {
    IsAlphaNumeric(c) || c == '-' || c == '_' || c == '.' || c == '!' || c == '~'
    || c == '*' || c == '\'' || c == '(' || c == ')'
  }

  predicate IsByte(b: nat) {
    b < 256
  }

  // ---------------------------------------------------------------- hexadecimal digits

  function HexDigit(d: nat): (c: char)
    requires d < 16
    ensures IsAlphaNumeric(c)
  {
    if d < 10 then ('0' as int + d) as char else ('A' as int + d - 10) as char
  }

  /** Either case is accepted when decoding. */
  predicate IsHexDigit(c: char) {
    ('0' <= c <= '9') || ('A' <= c <= 'F') || ('a' <= c <= 'f')
  }

  function HexValue(c: char): (d: nat)
    requires IsHexDigit(c)
    ensures d < 16
  {
    if c <= '9' then c as int - '0' as int
    else if c <= 'F' then c as int - 'A' as int + 10
    else c as int - 'a' as int + 10
  }

  lemma HexDigitValue(d: nat)
    requires d < 16
    ensures IsHexDigit(HexDigit(d)) && HexValue(HexDigit(d)) == d
  {
  }

  // ---------------------------------------------------------------- UTF-8

  /** The UTF-8 bytes of a code point: one byte below 0x80, then two, three or four,
      the lead byte carrying the high bits and each continuation byte six more. */
  function Utf8(c: char): (bytes: seq<nat>)
    ensures 1 <= |bytes| <= 4
    ensures forall i :: 0 <= i < |bytes| ==> IsByte(bytes[i])
  {
    var cp := c as int;
    var q1, r1 := cp / 64, cp % 64;
    var q2, r2 := q1 / 64, q1 % 64;
    var q3, r3 := q2 / 64, q2 % 64;
    if cp < 0x80 then [cp]
    else if cp < 0x800 then [0xC0 + q1, 0x80 + r1]
    else if cp < 0x10000 then [0xE0 + q2, 0x80 + r2, 0x80 + r1]
    else [0xF0 + q3, 0x80 + r3, 0x80 + r2, 0x80 + r1]
  }

  // ---------------------------------------------------------------- encoding

  function PercentByte(b: nat): (r: string)
    requires IsByte(b)
    ensures |r| == 3 && r[0] == '%' && IsAlphaNumeric(r[1]) && IsAlphaNumeric(r[2])
  {
    ['%', HexDigit(b / 16), HexDigit(b % 16)]
  }

  function PercentBytes(bytes: seq<nat>): (r: string)
    requires forall i :: 0 <= i < |bytes| ==> IsByte(bytes[i])
    ensures |r| == 3 * |bytes|
    ensures forall i :: 0 <= i < |r| ==> r[i] == '%' || IsAlphaNumeric(r[i])
  {
    if bytes == [] then [] else PercentByte(bytes[0]) + PercentBytes(bytes[1..])
  }

  function EncodeChar(c: char): string {
    if Unreserved(c) then [c] else PercentBytes(Utf8(c))
  }

  /** `encodeURIComponent`; the result uses only unreserved characters and `%`, so it
      can stand between `&` and `=` delimiters of a query string. */
  function Encode(s: string): (r: string)
    ensures forall i :: 0 <= i < |r| ==> Unreserved(r[i]) || r[i] == '%'
    ensures |r| >= |s|
  {
    if s == [] then [] else EncodeChar(s[0]) + Encode(s[1..])
  }

  /** Encoding works character by character. */
  lemma {:induction false} EncodeConcat(a: string, b: string)
    ensures Encode(a + b) == Encode(a) + Encode(b)
    decreases |a|
  {
    if a != [] {
      assert (a + b)[0] == a[0];
      assert (a + b)[1..] == a[1..] + b;
      EncodeConcat(a[1..], b);
      var x, y, z := EncodeChar(a[0]), Encode(a[1..]), Encode(b);
      assert Encode(a + b) == x + (y + z);
      assert Encode(a) == x + y;
      assert x + (y + z) == (x + y) + z;
    } else {
      assert a + b == b;
    }
  }

  /** Text made only of unreserved characters comes out unchanged, and only such text. */
  lemma {:induction false} EncodeIdentityIff(s: string)
    ensures Encode(s) == s <==> forall i :: 0 <= i < |s| ==> Unreserved(s[i])
    decreases |s|
  {
    if s != [] {
      EncodeIdentityIff(s[1..]);
      if Unreserved(s[0]) {
        assert Encode(s) == [s[0]] + Encode(s[1..]);
        assert (forall i :: 0 <= i < |s| ==> Unreserved(s[i])) <==>
               (forall i :: 0 <= i < |s| - 1 ==> Unreserved(s[1..][i]));
        if Encode(s) == s {
          assert Encode(s)[1..] == s[1..];
        }
      } else {
        assert |Encode(s)| >= 3 + |s| - 1;
      }
    }
  }

  // ---------------------------------------------------------------- decoding

  /** The byte written as `%XY` at position `i`, if there is one. */
  function ByteAt(t: string, i: nat): (r: Option<nat>)
    ensures r.Some? ==> IsByte(r.value)
  {
    if i + 3 <= |t| && t[i] == '%' && IsHexDigit(t[i + 1]) && IsHexDigit(t[i + 2])
    then Some(16 * HexValue(t[i + 1]) + HexValue(t[i + 2]))
    else None
  }

  /** A UTF-8 continuation byte `10xxxxxx`, with its six payload bits. */
  function Continuation(t: string, i: nat): (r: Option<nat>)
    ensures r.Some? ==> r.value < 64
  {
    match ByteAt(t, i)
    case None => None
    case Some(b) => if 0x80 <= b < 0xC0 then Some(b - 0x80) else None
  }

  /** The code point of the percent-encoded UTF-8 sequence at the front of `t`, and the
      number of characters it takes. A lead byte that starts no sequence, a missing
      continuation byte, an overlong form, a surrogate and a value above 0x10FFFF are
      all refused, as `decodeURIComponent` throws `URIError` for each. */
  function DecodeOctets(t: string): (r: Option<(char, nat)>)
    ensures r.Some? ==> 3 <= r.value.1 <= |t|
  {
    match ByteAt(t, 0)
    case None => None
    case Some(b0) =>
      if b0 < 0x80 then Some((b0 as char, 3))
      else if 0xC2 <= b0 < 0xE0 then
        match Continuation(t, 3)
        case None => None
        case Some(c1) => Some((((b0 - 0xC0) * 64 + c1) as char, 6))
      else if 0xE0 <= b0 < 0xF0 then
        match (Continuation(t, 3), Continuation(t, 6))
        case (Some(c1), Some(c2)) =>
          var cp := ((b0 - 0xE0) * 64 + c1) * 64 + c2;
          if cp < 0x800 || (0xD800 <= cp < 0xE000) then None else Some((cp as char, 9))
        case _ => None
      else if 0xF0 <= b0 < 0xF5 then
        match (Continuation(t, 3), Continuation(t, 6), Continuation(t, 9))
        case (Some(c1), Some(c2), Some(c3)) =>
          var cp := (((b0 - 0xF0) * 64 + c1) * 64 + c2) * 64 + c3;
          if cp < 0x10000 || cp >= 0x110000 then None else Some((cp as char, 12))
        case _ => None
      else None
  }

  function Prepend(c: char, r: Option<string>): Option<string> {
    match r
    case None => None
    case Some(s) => Some([c] + s)
  }

  /** `decodeURIComponent`: `None` where it throws `URIError`. */
  function Decode(t: string): Option<string>
    decreases |t|
  {
    if t == [] then Some([])
    else if t[0] != '%' then Prepend(t[0], Decode(t[1..]))
    else match DecodeOctets(t)
      case None => None
      case Some((c, k)) => Prepend(c, Decode(t[k..]))
  }

  // ---------------------------------------------------------------- the round trip

  /** The byte at each position of a run of percent-encoded bytes reads back. */
  lemma {:induction false} PercentBytesRead(bytes: seq<nat>, rest: string, i: nat)
    requires forall j :: 0 <= j < |bytes| ==> IsByte(bytes[j])
    requires i < |bytes|
    ensures ByteAt(PercentBytes(bytes) + rest, 3 * i) == Some(bytes[i])
    decreases i
  {
    var t := PercentBytes(bytes) + rest;
    if i == 0 {
      var b := bytes[0];
      HexDigitValue(b / 16);
      HexDigitValue(b % 16);
      assert t[..3] == PercentByte(b);
    } else {
      PercentBytesRead(bytes[1..], rest, i - 1);
      assert PercentBytes(bytes) + rest == PercentByte(bytes[0]) + (PercentBytes(bytes[1..]) + rest);
      assert t[3..] == PercentBytes(bytes[1..]) + rest;
    }
  }

  /** The encoding of one reserved character decodes to that character. */
  lemma DecodeOctetsOfChar(c: char, rest: string)
    requires !Unreserved(c)
    ensures DecodeOctets(EncodeChar(c) + rest) == Some((c, |EncodeChar(c)|))
  {
    var cp := c as int;
    if cp < 0x80 {
      PercentBytesRead(Utf8(c), rest, 0);
    } else if cp < 0x800 {
      DecodeTwoBytes(c, rest);
    } else if cp < 0x10000 {
      DecodeThreeBytes(c, rest);
    } else {
      DecodeFourBytes(c, rest);
    }
  }

  /** Each byte of the encoding of `c` reads back at its position. */
  lemma EncodedBytesRead(c: char, rest: string)
    requires !Unreserved(c)
    ensures forall i :: 0 <= i < |Utf8(c)| ==> ByteAt(EncodeChar(c) + rest, 3 * i) == Some(Utf8(c)[i])
  {
    forall i | 0 <= i < |Utf8(c)| ensures ByteAt(EncodeChar(c) + rest, 3 * i) == Some(Utf8(c)[i]) {
      PercentBytesRead(Utf8(c), rest, i);
    }
  }

  lemma DecodeTwoBytes(c: char, rest: string)
    requires !Unreserved(c) && 0x80 <= c as int < 0x800
    ensures DecodeOctets(EncodeChar(c) + rest) == Some((c, 6))
  {
    var t, b := EncodeChar(c) + rest, Utf8(c);
    EncodedBytesRead(c, rest);
    Utf8TwoBytes(c);
    assert ByteAt(t, 0) == Some(b[0]);
    assert Continuation(t, 3) == Some(b[1] - 0x80);
  }

  lemma DecodeThreeBytes(c: char, rest: string)
    requires !Unreserved(c) && 0x800 <= c as int < 0x10000
    ensures DecodeOctets(EncodeChar(c) + rest) == Some((c, 9))
  {
    var t, b := EncodeChar(c) + rest, Utf8(c);
    EncodedBytesRead(c, rest);
    Utf8ThreeBytes(c);
    assert ByteAt(t, 0) == Some(b[0]);
    assert Continuation(t, 3) == Some(b[1] - 0x80);
    assert Continuation(t, 6) == Some(b[2] - 0x80);
  }

  lemma DecodeFourBytes(c: char, rest: string)
    requires !Unreserved(c) && 0x10000 <= c as int
    ensures DecodeOctets(EncodeChar(c) + rest) == Some((c, 12))
  {
    var t, b := EncodeChar(c) + rest, Utf8(c);
    EncodedBytesRead(c, rest);
    Utf8FourBytes(c);
    assert ByteAt(t, 0) == Some(b[0]);
    assert Continuation(t, 3) == Some(b[1] - 0x80);
    assert Continuation(t, 6) == Some(b[2] - 0x80);
    assert Continuation(t, 9) == Some(b[3] - 0x80);
  }

  lemma Utf8TwoBytes(c: char)
    requires 0x80 <= c as int < 0x800
    ensures var b := Utf8(c);
      |b| == 2 && 0xC2 <= b[0] < 0xE0 && 0x80 <= b[1] < 0xC0
      && (b[0] - 0xC0) * 64 + (b[1] - 0x80) == c as int
  {
  }

  lemma Utf8ThreeBytes(c: char)
    requires 0x800 <= c as int < 0x10000
    ensures var b := Utf8(c);
      |b| == 3 && 0xE0 <= b[0] < 0xF0
      && 0x80 <= b[1] < 0xC0 && 0x80 <= b[2] < 0xC0
      && ((b[0] - 0xE0) * 64 + (b[1] - 0x80)) * 64 + (b[2] - 0x80) == c as int
  {
  }

  lemma Utf8FourBytes(c: char)
    requires 0x10000 <= c as int
    ensures var b := Utf8(c);
      |b| == 4 && 0xF0 <= b[0] < 0xF5
      && 0x80 <= b[1] < 0xC0 && 0x80 <= b[2] < 0xC0 && 0x80 <= b[3] < 0xC0
      && (((b[0] - 0xF0) * 64 + (b[1] - 0x80)) * 64 + (b[2] - 0x80)) * 64 + (b[3] - 0x80) == c as int
  {
  }

  /** Decoding undoes encoding one character at a time. */
  lemma DecodeEncodedChar(c: char, rest: string)
    ensures Decode(EncodeChar(c) + rest) == Prepend(c, Decode(rest))
  {
    var t := EncodeChar(c) + rest;
    if Unreserved(c) {
      assert t[1..] == rest;
    } else {
      DecodeOctetsOfChar(c, rest);
      assert t[|EncodeChar(c)|..] == rest;
    }
  }

  /** `decodeURIComponent(encodeURIComponent(s)) === s` for every string. */
  lemma {:induction false} DecodeEncode(s: string)
    ensures Decode(Encode(s)) == Some(s)
    decreases |s|
  {
    if s != [] {
      DecodeEncodedChar(s[0], Encode(s[1..]));
      DecodeEncode(s[1..]);
      assert [s[0]] + s[1..] == s;
    }
  }
}
