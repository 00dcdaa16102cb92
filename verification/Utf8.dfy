/** UTF-8 as a strict decoder reads it (RFC 3629): every text has one encoding and nothing else decodes. */
module Utf8 {
  import opened Options

  type Byte = b: int | 0 <= b < 256

  function Continuation(code: nat): Byte {
    0x80 + code % 64
  }

  function EncodeChar(c: char): (bytes: seq<Byte>)
    ensures 1 <= |bytes| <= 4 && Width(bytes[0]) == |bytes|
    ensures |bytes| == 1 <==> c as int < 0x80
  {
    var code := c as int;
    if code < 0x80 then [code]
    else if code < 0x800 then [0xC0 + code / 64, Continuation(code)]
    else if code < 0x10000 then [0xE0 + code / 64 / 64, Continuation(code / 64), Continuation(code)]
    else [0xF0 + code / 64 / 64 / 64, Continuation(code / 64 / 64), Continuation(code / 64), Continuation(code)]
  }

  /** The length a first byte announces; 0 for a byte that starts no character. */
  function Width(first: Byte): nat {
    if first < 0x80 then 1
    else if first < 0xC0 then 0
    else if first < 0xE0 then 2
    else if first < 0xF0 then 3
    else if first < 0xF8 then 4
    else 0
  }

  /** The code point that the payload bits of one group spell. */
  function CodePoint(group: seq<Byte>): nat
    requires 1 <= |group| <= 4
  {
    var first: int := group[0];
    if |group| == 1 then first
    else if |group| == 2 then Join(first % 32, group[1])
    else if |group| == 3 then Join(Join(first % 16, group[1]), group[2])
    else Join(Join(Join(first % 8, group[1]), group[2]), group[3])
  }

  function Join(high: nat, b: Byte): nat {
    high * 64 + b as int % 64
  }

  predicate IsScalar(code: nat) {
    code < 0xD800 || 0xE000 <= code < 0x110000
  }

  /** Overlong groups, surrogates and broken continuations are refused: the group must be what encoding gives. */
  function DecodeGroup(group: seq<Byte>): Option<char>
    requires 1 <= |group| <= 4
  {
    var code := CodePoint(group);
    if IsScalar(code) && EncodeChar(code as char) == group then Some(code as char) else None
  }

  function Encode(s: string): seq<Byte> {
    if s == [] then [] else EncodeChar(s[0]) + Encode(s[1..])
  }

  function Decode(bytes: seq<Byte>): Option<string> {
    if bytes == [] then Some("")
    else
      var width := Width(bytes[0]);
      if width == 0 || width > |bytes| then None
      else
        match DecodeGroup(bytes[..width])
        case None => None
        case Some(c) =>
          match Decode(bytes[width..])
          case None => None
          case Some(rest) => Some([c] + rest)
  }

  lemma JoinSplit(code: nat)
    ensures Join(code / 64, Continuation(code)) == code
  {
  }

  lemma Marked(high: nat)
    ensures high < 32 ==> (0xC0 + high) % 32 == high
    ensures high < 16 ==> (0xE0 + high) % 16 == high
    ensures high < 8 ==> (0xF0 + high) % 8 == high
  {
  }

  /** The payload bits of a group, for any bytes after the first. */
  lemma MarkedCodePoint(high: nat, a: Byte, b: Byte, c: Byte)
    ensures high < 32 ==> CodePoint([0xC0 + high, a]) == Join(high, a)
    ensures high < 16 ==> CodePoint([0xE0 + high, a, b]) == Join(Join(high, a), b)
    ensures high < 8 ==> CodePoint([0xF0 + high, a, b, c]) == Join(Join(Join(high, a), b), c)
  {
    Marked(high);
  }

  lemma EncodedCodePoint(c: char)
    ensures CodePoint(EncodeChar(c)) == c as int
  {
    var code := c as int;
    var low, mid, high := Continuation(code), Continuation(code / 64), Continuation(code / 64 / 64);
    JoinSplit(code);
    JoinSplit(code / 64);
    JoinSplit(code / 64 / 64);
    if code < 0x80 {
    } else if code < 0x800 {
      MarkedCodePoint(code / 64, low, low, low);
    } else if code < 0x10000 {
      MarkedCodePoint(code / 64 / 64, mid, low, low);
    } else {
      MarkedCodePoint(code / 64 / 64 / 64, high, mid, low);
    }
  }

  lemma DecodeEncodedChar(c: char)
    ensures DecodeGroup(EncodeChar(c)) == Some(c)
  {
    EncodedCodePoint(c);
  }

  lemma {:induction false} DecodeEncoded(s: string)
    ensures Decode(Encode(s)) == Some(s)
  {
    if s != [] {
      var head, tail := EncodeChar(s[0]), Encode(s[1..]);
      assert (head + tail)[..|head|] == head && (head + tail)[|head|..] == tail;
      DecodeEncodedChar(s[0]);
      DecodeEncoded(s[1..]);
      assert s == [s[0]] + s[1..];
    }
  }

  lemma EncodeCons(c: char, rest: string)
    ensures Encode([c] + rest) == EncodeChar(c) + Encode(rest)
  {
    assert ([c] + rest)[1..] == rest;
  }

  lemma GroupEncodes(group: seq<Byte>)
    requires 1 <= |group| <= 4 && DecodeGroup(group).Some?
    ensures EncodeChar(DecodeGroup(group).value) == group
  {
  }

  lemma DecodeStep(bytes: seq<Byte>) returns (front: seq<Byte>, back: seq<Byte>, c: char, rest: string)
    requires bytes != [] && Decode(bytes).Some?
    ensures bytes == front + back && |back| < |bytes| && front == EncodeChar(c)
    ensures Decode(back) == Some(rest) && Decode(bytes) == Some([c] + rest)
  {
    var width := Width(bytes[0]);
    front, back := bytes[..width], bytes[width..];
    c, rest := DecodeGroup(front).value, Decode(back).value;
    GroupEncodes(front);
  }

  lemma {:induction false} DecodedEncodes(bytes: seq<Byte>)
    requires Decode(bytes).Some?
    ensures Encode(Decode(bytes).value) == bytes
  {
    if bytes != [] {
      var front, back, c, rest := DecodeStep(bytes);
      DecodedEncodes(back);
      EncodeCons(c, rest);
    }
  }

  /** Decoding is the exact inverse of encoding: it answers a text exactly for the encoding of that text. */
  lemma DecodeIff(bytes: seq<Byte>, s: string)
    ensures Decode(bytes) == Some(s) <==> bytes == Encode(s)
  {
    DecodeEncoded(s);
    if Decode(bytes) == Some(s) {
      DecodedEncodes(bytes);
    }
  }

  lemma {:induction false} EncodeAppend(a: string, b: string)
    ensures Encode(a + b) == Encode(a) + Encode(b)
  {
    if a == [] {
      assert a + b == b;
    } else {
      assert (a + b)[1..] == a[1..] + b;
      EncodeAppend(a[1..], b);
    }
  }

  predicate Ascii(s: string) {
    forall i | 0 <= i < |s| :: s[i] as int < 0x80
  }

  lemma {:induction false} AsciiLength(s: string)
    ensures |Encode(s)| >= |s|
    ensures Ascii(s) ==> |Encode(s)| == |s|
  {
    if s != [] {
      AsciiLength(s[1..]);
    }
  }

  /** The examples of section 7 of RFC 3629 that have one, two and three bytes, and a character of four. */
  lemma KnownEncodings()
    ensures EncodeChar('A') == [0x41]
    ensures EncodeChar('\U{0391}') == [0xCE, 0x91]
    ensures EncodeChar('\U{65E5}') == [0xE6, 0x97, 0xA5]
    ensures EncodeChar('\U{233B4}') == [0xF0, 0xA3, 0x8E, 0xB4]
  {
    assert '\U{0391}' as int == 0x391 && '\U{65E5}' as int == 0x65E5 && '\U{233B4}' as int == 0x233B4;
  }
}
