// Bytes, UTF-8 encoding of strings (Python's `str.encode("utf-8")`) and the
// Base64 encoding of section 4 of RFC 4648 (Python's `base64.b64encode`), with
// a decoder that inverts it.

module Bytes {
  type Byte = x: int | 0 <= x < 256

  /** UTF-8 encoding of one Unicode scalar value (section 3 of RFC 3629). */
  function EncodeChar(c: char): (bs: seq<Byte>)
    ensures 1 <= |bs| <= 4
    ensures (c as int < 0x80) <==> |bs| == 1
    ensures c as int < 0x80 ==> bs == [c as int]
    ensures c as int >= 0x80 ==> forall i :: 0 <= i < |bs| ==> bs[i] >= 0x80
  {
    var cp := c as int;
    if cp < 0x80 then [cp]
    else if cp < 0x800 then [0xC0 + cp / 0x40, 0x80 + cp % 0x40]
    else if cp < 0x10000 then [0xE0 + cp / 0x1000, 0x80 + (cp / 0x40) % 0x40, 0x80 + cp % 0x40]
    else [0xF0 + cp / 0x40000, 0x80 + (cp / 0x1000) % 0x40, 0x80 + (cp / 0x40) % 0x40, 0x80 + cp % 0x40]
  }

  /** `s.encode("utf-8")`. */
  function Utf8(s: string): seq<Byte>
    decreases |s|
  {
    if |s| == 0 then [] else EncodeChar(s[0]) + Utf8(s[1..])
  }

  lemma {:induction false} Utf8Append(a: string, b: string)
    ensures Utf8(a + b) == Utf8(a) + Utf8(b)
    decreases |a|
  {
    if |a| > 0 {
      assert (a + b)[0] == a[0];
      assert (a + b)[1..] == a[1..] + b;
      Utf8Append(a[1..], b);
    } else {
      assert a + b == b;
    }
  }

  /** An ASCII character's byte occurs in the encoding exactly where the character does. */
  lemma {:induction false} Utf8AsciiByte(s: string, c: char)
    requires c as int < 0x80
    ensures (c as int in Utf8(s)) <==> c in s
    decreases |s|
  {
    if |s| > 0 {
      Utf8AsciiByte(s[1..], c);
      var head := EncodeChar(s[0]);
      assert Utf8(s) == head + Utf8(s[1..]);
      assert c as int in head <==> s[0] == c;
      assert c in s <==> s[0] == c || c in s[1..];
    }
  }
}

module Base64 {
  import opened Wrappers
  import opened Bytes

  /** Table 1 of section 4 of RFC 4648: values 0-25 are `A`-`Z`, 26-51 are
      `a`-`z`, 52-61 are `0`-`9`, 62 is `+` and 63 is `/`. */
  function IndexToChar(i: nat): (c: char)
    requires i < 64
  {
    if i < 26 then ('A' as int + i) as char
    else if i < 52 then ('a' as int + (i - 26)) as char
    else if i < 62 then ('0' as int + (i - 52)) as char
    else if i == 62 then '+'
    else '/'
  }

  predicate IsAlphabetChar(c: char) {
    'A' <= c <= 'Z' || 'a' <= c <= 'z' || '0' <= c <= '9' || c == '+' || c == '/'
  }

  function CharToIndex(c: char): (i: nat)
    requires IsAlphabetChar(c)
    ensures i < 64 && IndexToChar(i) == c
  {
    if 'A' <= c <= 'Z' then c as int - 'A' as int
    else if 'a' <= c <= 'z' then c as int - 'a' as int + 26
    else if '0' <= c <= '9' then c as int - '0' as int + 52
    else if c == '+' then 62
    else 63
  }

  /** Each of the 64 values has its own character, and reading the character back gives the value. */
  lemma AlphabetRoundTrip(i: nat)
    requires i < 64
    ensures IsAlphabetChar(IndexToChar(i)) && CharToIndex(IndexToChar(i)) == i
  {
  }

  function Sextet(i: nat): char
    requires i < 64
    ensures IsAlphabetChar(Sextet(i))
  {
    AlphabetRoundTrip(i);
    IndexToChar(i)
  }

  function EncodeGroup(b0: Byte, b1: Byte, b2: Byte): string {
    [Sextet(b0 / 4), Sextet((b0 % 4) * 16 + b1 / 16), Sextet((b1 % 16) * 4 + b2 / 64), Sextet(b2 % 64)]
  }

  /** `base64.b64encode(bytes)`: 24-bit groups of four characters, the last
      group padded with `=` when fewer than three bytes remain. */
  function Encode(bytes: seq<Byte>): (s: string)
    ensures |s| == 4 * ((|bytes| + 2) / 3)
    decreases |bytes|
  {
    if |bytes| == 0 then ""
    else if |bytes| == 1 then
      [Sextet(bytes[0] / 4), Sextet((bytes[0] % 4) * 16), '=', '=']
    else if |bytes| == 2 then
      [Sextet(bytes[0] / 4), Sextet((bytes[0] % 4) * 16 + bytes[1] / 16), Sextet((bytes[1] % 16) * 4), '=']
    else EncodeGroup(bytes[0], bytes[1], bytes[2]) + Encode(bytes[3..])
  }

  function DecodeByte0(c0: char, c1: char): Byte
    requires IsAlphabetChar(c0) && IsAlphabetChar(c1)
  {
    CharToIndex(c0) * 4 + CharToIndex(c1) / 16
  }

  function DecodeByte1(c1: char, c2: char): Byte
    requires IsAlphabetChar(c1) && IsAlphabetChar(c2)
  {
    (CharToIndex(c1) % 16) * 16 + CharToIndex(c2) / 4
  }

  function DecodeByte2(c2: char, c3: char): Byte
    requires IsAlphabetChar(c2) && IsAlphabetChar(c3)
  {
    (CharToIndex(c2) % 4) * 64 + CharToIndex(c3)
  }

  /** One group of four characters; `last` allows the `=` padding of the final group. */
  function DecodeGroup(g: string, last: bool): Option<seq<Byte>>
    requires |g| == 4
  {
    if !IsAlphabetChar(g[0]) || !IsAlphabetChar(g[1]) then None
    else if IsAlphabetChar(g[2]) && IsAlphabetChar(g[3]) then
      Some([DecodeByte0(g[0], g[1]), DecodeByte1(g[1], g[2]), DecodeByte2(g[2], g[3])])
    else if last && IsAlphabetChar(g[2]) && g[3] == '=' then
      Some([DecodeByte0(g[0], g[1]), DecodeByte1(g[1], g[2])])
    else if last && g[2] == '=' && g[3] == '=' then
      Some([DecodeByte0(g[0], g[1])])
    else None
  }

  /** Decoding of padded Base64 text; None for text that is not Base64. */
  function Decode(s: string): Option<seq<Byte>>
    decreases |s|
  {
    if |s| == 0 then Some([])
    else if |s| < 4 then None
    else
      match DecodeGroup(s[..4], |s| == 4)
      case None => None
      case Some(head) =>
        match Decode(s[4..])
        case None => None
        case Some(tail) => Some(head + tail)
  }

  lemma Pack16(a: nat, b: nat)
    requires b < 16
    ensures (a * 16 + b) / 16 == a && (a * 16 + b) % 16 == b
  {
  }

  lemma Pack4(a: nat, b: nat)
    requires b < 4
    ensures (a * 4 + b) / 4 == a && (a * 4 + b) % 4 == b
  {
  }

  /** The first byte is the top six bits of the first sextet and the top two of the second. */
  lemma Byte0RoundTrip(b0: Byte, b1: Byte)
    ensures DecodeByte0(Sextet(b0 / 4), Sextet((b0 % 4) * 16 + b1 / 16)) == b0
  {
    AlphabetRoundTrip(b0 / 4);
    AlphabetRoundTrip((b0 % 4) * 16 + b1 / 16);
    Pack16(b0 % 4, b1 / 16);
  }

  lemma Byte1RoundTrip(b0: Byte, b1: Byte, b2: Byte)
    ensures DecodeByte1(Sextet((b0 % 4) * 16 + b1 / 16), Sextet((b1 % 16) * 4 + b2 / 64)) == b1
  {
    AlphabetRoundTrip((b0 % 4) * 16 + b1 / 16);
    AlphabetRoundTrip((b1 % 16) * 4 + b2 / 64);
    Pack16(b0 % 4, b1 / 16);
    Pack4(b1 % 16, b2 / 64);
  }

  lemma Byte2RoundTrip(b1: Byte, b2: Byte)
    ensures DecodeByte2(Sextet((b1 % 16) * 4 + b2 / 64), Sextet(b2 % 64)) == b2
  {
    AlphabetRoundTrip((b1 % 16) * 4 + b2 / 64);
    AlphabetRoundTrip(b2 % 64);
    Pack4(b1 % 16, b2 / 64);
  }

  lemma FullGroupRoundTrip(b0: Byte, b1: Byte, b2: Byte)
    ensures DecodeGroup(EncodeGroup(b0, b1, b2), false) == Some([b0, b1, b2])
    ensures DecodeGroup(EncodeGroup(b0, b1, b2), true) == Some([b0, b1, b2])
  {
    var g := EncodeGroup(b0, b1, b2);
    assert IsAlphabetChar(g[0]) && IsAlphabetChar(g[1]) && IsAlphabetChar(g[2]) && IsAlphabetChar(g[3]);
    Byte0RoundTrip(b0, b1);
    Byte1RoundTrip(b0, b1, b2);
    Byte2RoundTrip(b1, b2);
    var bytes := [DecodeByte0(g[0], g[1]), DecodeByte1(g[1], g[2]), DecodeByte2(g[2], g[3])];
    assert bytes == [b0, b1, b2];
    assert DecodeGroup(g, false) == Some(bytes) && DecodeGroup(g, true) == Some(bytes);
  }

  lemma OneByteRoundTrip(b0: Byte)
    ensures Decode(Encode([b0])) == Some([b0])
  {
    var s := Encode([b0]);
    Byte0RoundTrip(b0, 0);
    assert s[..4] == s && s[4..] == "";
    assert DecodeGroup(s, true) == Some([b0]);
    assert Decode(s[4..]) == Some([]);
    assert [b0] + [] == [b0];
  }

  lemma TwoByteRoundTrip(b0: Byte, b1: Byte)
    ensures Decode(Encode([b0, b1])) == Some([b0, b1])
  {
    var s := Encode([b0, b1]);
    Byte0RoundTrip(b0, b1);
    Byte1RoundTrip(b0, b1, 0);
    assert (b1 % 16) * 4 + 0 / 64 == (b1 % 16) * 4;
    assert s[..4] == s && s[4..] == "";
    assert DecodeGroup(s, true) == Some([b0, b1]);
    assert Decode(s[4..]) == Some([]);
    assert [b0, b1] + [] == [b0, b1];
  }

  lemma GroupThenRest(bytes: seq<Byte>)
    requires |bytes| >= 3
    requires Decode(Encode(bytes[3..])) == Some(bytes[3..])
    ensures Decode(Encode(bytes)) == Some(bytes)
  {
    var g := EncodeGroup(bytes[0], bytes[1], bytes[2]);
    var rest := Encode(bytes[3..]);
    assert Encode(bytes) == g + rest;
    FullGroupRoundTrip(bytes[0], bytes[1], bytes[2]);
    DecodeCons(g, rest);
    FirstThree(bytes);
  }

  lemma FirstThree(bytes: seq<Byte>)
    requires |bytes| >= 3
    ensures [bytes[0], bytes[1], bytes[2]] + bytes[3..] == bytes
  {
  }

  lemma DecodeCons(g: string, rest: string)
    requires |g| == 4
    ensures Decode(g + rest) ==
      match DecodeGroup(g, |rest| == 0)
      case None => None
      case Some(head) =>
        match Decode(rest)
        case None => None
        case Some(tail) => Some(head + tail)
  {
    var s := g + rest;
    assert s[..4] == g && s[4..] == rest;
  }

  /** Decoding the encoding gives the bytes back. */
  lemma {:induction false} DecodeEncode(bytes: seq<Byte>)
    ensures Decode(Encode(bytes)) == Some(bytes)
    decreases |bytes|
  {
    if |bytes| == 1 {
      assert bytes == [bytes[0]];
      OneByteRoundTrip(bytes[0]);
    } else if |bytes| == 2 {
      assert bytes == [bytes[0], bytes[1]];
      TwoByteRoundTrip(bytes[0], bytes[1]);
    } else if |bytes| >= 3 {
      DecodeEncode(bytes[3..]);
      GroupThenRest(bytes);
    }
  }

  /** Base64 text as section 4 of RFC 4648 writes it: alphabet characters, then
      at most two `=` that only close the text. */
  predicate IsPaddedBase64(s: string) {
    |s| % 4 == 0 &&
    (forall i :: 0 <= i < |s| ==> IsAlphabetChar(s[i]) || (s[i] == '=' && i >= |s| - 2)) &&
    (forall i, j :: 0 <= i < j < |s| && s[i] == '=' ==> s[j] == '=')
  }

  lemma {:induction false} EncodeIsPadded(bytes: seq<Byte>)
    ensures IsPaddedBase64(Encode(bytes))
    ensures |bytes| > 0 ==> IsAlphabetChar(Encode(bytes)[0])
    decreases |bytes|
  {
    if |bytes| >= 3 {
      EncodeIsPadded(bytes[3..]);
      var g := EncodeGroup(bytes[0], bytes[1], bytes[2]);
      assert Encode(bytes) == g + Encode(bytes[3..]);
      PaddedAfterGroup(g, Encode(bytes[3..]));
    }
  }

  /** Four alphabet characters in front of padded Base64 text keep it padded. */
  lemma PaddedAfterGroup(g: string, rest: string)
    requires |g| == 4 && forall i :: 0 <= i < 4 ==> IsAlphabetChar(g[i])
    requires IsPaddedBase64(rest)
    ensures IsPaddedBase64(g + rest) && IsAlphabetChar((g + rest)[0])
  {
    var s := g + rest;
    forall i | 0 <= i < |s|
      ensures IsAlphabetChar(s[i]) || (s[i] == '=' && i >= |s| - 2)
    {
      assert s[i] == (if i < 4 then g[i] else rest[i - 4]);
    }
    forall i | 0 <= i < 4
      ensures s[i] != '='
    {
      assert s[i] == g[i];
    }
    forall i, j | 0 <= i < j < |s| && s[i] == '='
      ensures s[j] == '='
    {
      assert s[i] == rest[i - 4];
      assert s[j] == rest[j - 4];
    }
  }
}
