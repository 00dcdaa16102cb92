/** Base64 with the URL-safe alphabet (RFC 4648, section 5), written without padding and read with padding restored. */
module Base64Url {
  import opened Options
  import opened Utf8

  type Sextet = v: int | 0 <= v < 64

  // ---- Bytes and sextets: three of the one are four of the other

  function First(a: Byte): Sextet { a / 4 }
  function Second(a: Byte, b: Byte): Sextet { a as int % 4 * 16 + b as int / 16 }
  function Third(b: Byte, c: Byte): Sextet { b as int % 16 * 4 + c as int / 64 }
  function Fourth(c: Byte): Sextet { c % 64 }

  function FirstByte(p: Sextet, q: Sextet): Byte { p as int * 4 + q as int / 16 }
  function SecondByte(q: Sextet, r: Sextet): Byte { q as int % 16 * 16 + r as int / 4 }
  function ThirdByte(r: Sextet, s: Sextet): Byte { r as int % 4 * 64 + s as int }

  lemma BytesReturn(a: Byte, b: Byte, c: Byte)
    ensures FirstByte(First(a), Second(a, b)) == a
    ensures SecondByte(Second(a, b), Third(b, c)) == b
    ensures ThirdByte(Third(b, c), Fourth(c)) == c
  {
  }

  /** A last group of one or two bytes is filled with zero bits. */
  function ToSextets(bytes: seq<Byte>): seq<Sextet> {
    if |bytes| == 0 then []
    else if |bytes| == 1 then [First(bytes[0]), Second(bytes[0], 0)]
    else if |bytes| == 2 then [First(bytes[0]), Second(bytes[0], bytes[1]), Third(bytes[1], 0)]
    else [First(bytes[0]), Second(bytes[0], bytes[1]), Third(bytes[1], bytes[2]), Fourth(bytes[2])] + ToSextets(bytes[3..])
  }

  /** Bits left over in the last group are not looked at. */
  function FromSextets(q: seq<Sextet>): seq<Byte> {
    if |q| <= 1 then []
    else if |q| == 2 then [FirstByte(q[0], q[1])]
    else if |q| == 3 then [FirstByte(q[0], q[1]), SecondByte(q[1], q[2])]
    else [FirstByte(q[0], q[1]), SecondByte(q[1], q[2]), ThirdByte(q[2], q[3])] + FromSextets(q[4..])
  }

  lemma {:induction false} SextetCount(bytes: seq<Byte>)
    ensures |ToSextets(bytes)| == (4 * |bytes| + 2) / 3
    ensures |ToSextets(bytes)| % 4 != 1
  {
    if |bytes| >= 3 {
      SextetCount(bytes[3..]);
    }
  }

  lemma FromShort(p: Sextet, q: Sextet, r: Sextet)
    ensures FromSextets([p, q]) == [FirstByte(p, q)]
    ensures FromSextets([p, q, r]) == [FirstByte(p, q), SecondByte(q, r)]
  {
  }

  lemma FromLong(p: Sextet, q: Sextet, r: Sextet, s: Sextet, rest: seq<Sextet>)
    ensures FromSextets([p, q, r, s] + rest) == [FirstByte(p, q), SecondByte(q, r), ThirdByte(r, s)] + FromSextets(rest)
  {
    assert ([p, q, r, s] + rest)[4..] == rest;
  }

  lemma FromOneByte(a: Byte)
    ensures FromSextets([First(a), Second(a, 0)]) == [a]
  {
    BytesReturn(a, 0, a);
    FromShort(First(a), Second(a, 0), First(a));
  }

  lemma FromTwoBytes(a: Byte, b: Byte)
    ensures FromSextets([First(a), Second(a, b), Third(b, 0)]) == [a, b]
  {
    BytesReturn(a, b, 0);
    FromShort(First(a), Second(a, b), Third(b, 0));
  }

  lemma FromThreeBytes(a: Byte, b: Byte, c: Byte, rest: seq<Sextet>)
    ensures FromSextets([First(a), Second(a, b), Third(b, c), Fourth(c)] + rest) == [a, b, c] + FromSextets(rest)
  {
    BytesReturn(a, b, c);
    FromLong(First(a), Second(a, b), Third(b, c), Fourth(c), rest);
  }

  lemma {:induction false} SextetsReturn(bytes: seq<Byte>)
    ensures FromSextets(ToSextets(bytes)) == bytes
  {
    if |bytes| == 1 {
      FromOneByte(bytes[0]);
    } else if |bytes| == 2 {
      FromTwoBytes(bytes[0], bytes[1]);
    } else if |bytes| >= 3 {
      SextetsReturn(bytes[3..]);
      FromThreeBytes(bytes[0], bytes[1], bytes[2], ToSextets(bytes[3..]));
      assert bytes == [bytes[0], bytes[1], bytes[2]] + bytes[3..];
    }
  }

  // ---- Sextets and characters

  function SextetChar(v: Sextet): char {
    if v < 26 then 'A' + v as char
    else if v < 52 then 'a' + (v - 26) as char
    else if v < 62 then '0' + (v - 52) as char
    else if v == 62 then '-'
    else '_'
  }

  /** The reader translates '-' and '_' to '+' and '/', so it takes both alphabets. */
  predicate IsSextetChar(c: char) {
    'A' <= c <= 'Z' || 'a' <= c <= 'z' || '0' <= c <= '9' || c == '-' || c == '_' || c == '+' || c == '/'
  }

  function SextetValue(c: char): Sextet
    requires IsSextetChar(c)
  {
    if 'A' <= c <= 'Z' then (c - 'A') as int
    else if 'a' <= c <= 'z' then (c - 'a') as int + 26
    else if '0' <= c <= '9' then (c - '0') as int + 52
    else if c == '-' || c == '+' then 62
    else 63
  }

  lemma SextetCharReturns(v: Sextet)
    ensures IsSextetChar(SextetChar(v)) && SextetValue(SextetChar(v)) == v
    ensures SextetChar(v) != '=' && SextetChar(v) != '.' && SextetChar(v) as int < 0x80
  {
  }

  function Text(q: seq<Sextet>): string {
    if q == [] then "" else [SextetChar(q[0])] + Text(q[1..])
  }

  function Values(s: string): Option<seq<Sextet>> {
    if s == "" then Some([])
    else if !IsSextetChar(s[0]) then None
    else
      match Values(s[1..])
      case None => None
      case Some(q) => Some([SextetValue(s[0])] + q)
  }

  lemma {:induction false} ValuesLength(s: string)
    ensures Values(s).Some? ==> |Values(s).value| == |s|
  {
    if s != "" {
      ValuesLength(s[1..]);
    }
  }

  predicate Lacks(s: string, c: char) {
    forall i | 0 <= i < |s| :: s[i] != c
  }

  lemma {:induction false} TextReturns(q: seq<Sextet>)
    ensures |Text(q)| == |q| && Values(Text(q)) == Some(q)
  {
    if q != [] {
      SextetCharReturns(q[0]);
      TextReturns(q[1..]);
      assert Text(q)[1..] == Text(q[1..]);
      assert q == [q[0]] + q[1..];
    }
  }

  lemma {:induction false} TextAt(q: seq<Sextet>, i: nat)
    requires i < |q|
    ensures |Text(q)| == |q| && Text(q)[i] == SextetChar(q[i])
  {
    if |q| > 1 {
      TextAt(q[1..], if i == 0 then 0 else i - 1);
    }
  }

  lemma TextCharacters(q: seq<Sextet>)
    ensures Ascii(Text(q)) && Lacks(Text(q), '=') && Lacks(Text(q), '.')
  {
    TextReturns(q);
    forall i | 0 <= i < |Text(q)|
      ensures var c := Text(q)[i]; c as int < 0x80 && c != '=' && c != '.'
    {
      TextAt(q, i);
      SextetCharReturns(q[i]);
    }
  }

  // ---- Writing and reading

  /** The characters of the data, before padding. */
  function EncodeBody(bytes: seq<Byte>): string {
    Text(ToSextets(bytes))
  }

  function Equals(n: nat): string {
    seq(n, _ => '=')
  }

  function Encode(bytes: seq<Byte>): string {
    EncodeBody(bytes) + Equals((3 - |bytes| % 3) % 3)
  }

  function StripEquals(s: string): (r: string)
    ensures r <= s
  {
    if s != "" && s[|s| - 1] == '=' then StripEquals(s[..|s| - 1]) else s
  }

  /** Whole groups, at most two characters of padding, and nothing outside the alphabet. */
  function Decode(s: string): Option<seq<Byte>> {
    var body := StripEquals(s);
    if |s| % 4 != 0 || |s| - |body| > 2 then None
    else
      match Values(body)
      case None => None
      case Some(q) => if |q| % 4 == 1 then None else Some(FromSextets(q))
  }

  function PaddingOf(length: nat): nat {
    (4 - length % 4) % 4
  }

  /** Padding is restored from the length of the encoded text. */
  function DecodeUnpadded(s: string): Option<seq<Byte>> {
    Decode(s + Equals(PaddingOf(|Utf8.Encode(s)|)))
  }

  // ---- What is read

  /** Whole groups of four: a last group of two or three characters is padded to four, one of one character is none. */
  ghost predicate Padded(s: string, body: string) {
    && (forall c | c in body :: IsSextetChar(c))
    && s == body + (if |body| % 4 == 2 then "==" else if |body| % 4 == 3 then "=" else "")
    && |body| % 4 != 1
  }

  lemma {:induction false} ValuesIff(s: string)
    ensures Values(s).Some? <==> forall c | c in s :: IsSextetChar(c)
    ensures Values(s).Some? ==> |Values(s).value| == |s|
    ensures Values(s).Some? ==> forall i | 0 <= i < |s| :: IsSextetChar(s[i]) && Values(s).value[i] == SextetValue(s[i])
  {
    if s != "" {
      ValuesIff(s[1..]);
      assert s == [s[0]] + s[1..];
      assert forall i | 0 < i < |s| :: s[i] == s[1..][i - 1];
    }
  }

  lemma {:induction false} StrippedOff(s: string)
    ensures s == StripEquals(s) + Equals(|s| - |StripEquals(s)|)
    ensures StripEquals(s) == "" || StripEquals(s)[|StripEquals(s)| - 1] != '='
  {
    if s != "" && s[|s| - 1] == '=' {
      var front := s[..|s| - 1];
      StrippedOff(front);
      var n := |front| - |StripEquals(front)|;
      assert s == front + "=" && Equals(n + 1) == Equals(n) + "=";
    } else {
      assert Equals(0) == "" && s + "" == s;
    }
  }

  lemma PaddingSpelled(n: nat)
    ensures n == 0 ==> Equals(n) == ""
    ensures n == 1 ==> Equals(n) == "="
    ensures n == 2 ==> Equals(n) == "=="
  {
  }

  lemma ReadIsPadded(s: string)
    requires Decode(s).Some?
    ensures Padded(s, StripEquals(s))
  {
    var body := StripEquals(s);
    StrippedOff(s);
    DecodeSome(s);
    ValuesIff(body);
    PaddingCount(|s|, |body|);
    PaddingSpelled(|s| - |body|);
  }

  lemma DecodeSome(s: string)
    ensures Decode(s).Some? <==>
              && |s| % 4 == 0 && |s| - |StripEquals(s)| <= 2
              && Values(StripEquals(s)).Some? && |Values(StripEquals(s)).value| % 4 != 1
  {
  }

  lemma PaddingCount(total: nat, length: nat)
    requires total % 4 == 0 && length <= total <= length + 2 && length % 4 != 1
    ensures total - length == if length % 4 == 2 then 2 else if length % 4 == 3 then 1 else 0
  {
  }

  lemma PaddingStrips(s: string, body: string)
    requires Padded(s, body)
    ensures StripEquals(s) == body && |s| % 4 == 0 && |s| - |body| <= 2
  {
    var n := |s| - |body|;
    PaddingSpelled(n);
    assert s == body + Equals(n);
    assert Lacks(body, '=') by {
      assert forall i | 0 <= i < |body| :: body[i] in body;
    }
    StripEqualsRemoves(body, n);
  }

  lemma PaddedIsRead(s: string, body: string)
    requires Padded(s, body)
    ensures Values(body).Some? && Decode(s) == Some(FromSextets(Values(body).value))
  {
    PaddingStrips(s, body);
    ValuesIff(body);
    DecodeStripped(s, Values(body).value);
  }

  /** Exactly the padded texts are read, whatever the bits left over in the last group, as the bytes of their characters. */
  lemma ReadIff(s: string)
    ensures Decode(s).Some? <==> exists body :: Padded(s, body)
    ensures forall body | Padded(s, body) :: Values(body).Some? && Decode(s) == Some(FromSextets(Values(body).value))
  {
    if Decode(s).Some? {
      ReadIsPadded(s);
    }
    forall body | Padded(s, body)
      ensures Values(body).Some? && Decode(s) == Some(FromSextets(Values(body).value))
    {
      PaddedIsRead(s, body);
    }
  }

  /** The alphabet and the padding, as in section 10 of RFC 4648, and the two characters of section 5. */
  lemma KnownTexts()
    ensures Encode([0x66]) == "Zg==" && Encode([0x66, 0x6f]) == "Zm8=" && Encode([0x66, 0x6f, 0x6f]) == "Zm9v"
    ensures Encode([0xfb, 0xff]) == "-_8="
  {
    assert [0x66, 0x6f, 0x6f][3..] == [];
    assert ToSextets([0x66]) == [25, 32] && ToSextets([0x66, 0x6f]) == [25, 38, 60];
    assert ToSextets([0x66, 0x6f, 0x6f]) == [25, 38, 61, 47] && ToSextets([0xfb, 0xff]) == [62, 63, 60];
    TextOf([25, 32]);
    TextOf([25, 38, 60]);
    TextOf([25, 38, 61, 47]);
    TextOf([62, 63, 60]);
    PaddingSpelled(0);
    PaddingSpelled(1);
    PaddingSpelled(2);
  }

  lemma TextOf(q: seq<Sextet>)
    requires 2 <= |q| <= 4
    ensures |Text(q)| == |q| && forall i | 0 <= i < |q| :: Text(q)[i] == SextetChar(q[i])
  {
    forall i | 0 <= i < |q|
      ensures |Text(q)| == |q| && Text(q)[i] == SextetChar(q[i])
    {
      TextAt(q, i);
    }
  }

  // ---- Round trip

  lemma {:induction false} StripEqualsRemoves(s: string, n: nat)
    requires Lacks(s, '=')
    ensures StripEquals(s + Equals(n)) == s
  {
    if n == 0 {
      assert s + Equals(0) == s;
    } else {
      assert (s + Equals(n))[..|s| + n - 1] == s + Equals(n - 1);
      StripEqualsRemoves(s, n - 1);
    }
  }

  lemma DecodeStripped(s: string, q: seq<Sextet>)
    requires Values(StripEquals(s)) == Some(q) && |q| % 4 != 1
    requires |s| % 4 == 0 && |s| - |StripEquals(s)| <= 2
    ensures Decode(s) == Some(FromSextets(q))
  {
  }

  lemma PaddedStrips(q: seq<Sextet>, n: nat)
    ensures var s := Text(q) + Equals(n);
            && |s| == |q| + n && |StripEquals(s)| == |q|
            && Values(StripEquals(s)) == Some(q)
  {
    TextReturns(q);
    TextCharacters(q);
    StripEqualsRemoves(Text(q), n);
  }

  lemma PaddingFits(length: nat)
    requires length % 4 != 1
    ensures PaddingOf(length) <= 2 && (length + PaddingOf(length)) % 4 == 0
  {
  }

  lemma EncodedLength(bytes: seq<Byte>)
    ensures |Utf8.Encode(EncodeBody(bytes))| == |ToSextets(bytes)|
  {
    TextReturns(ToSextets(bytes));
    TextCharacters(ToSextets(bytes));
    AsciiLength(EncodeBody(bytes));
  }

  lemma WrittenIsStripped(bytes: seq<Byte>)
    ensures StripEquals(Encode(bytes)) == EncodeBody(bytes)
  {
    TextCharacters(ToSextets(bytes));
    StripEqualsRemoves(EncodeBody(bytes), (3 - |bytes| % 3) % 3);
  }

  /** What the writer leaves after stripping the padding, the reader turns back into the same bytes. */
  lemma RoundTrip(bytes: seq<Byte>)
    ensures DecodeUnpadded(StripEquals(Encode(bytes))) == Some(bytes)
  {
    var q := ToSextets(bytes);
    WrittenIsStripped(bytes);
    SextetCount(bytes);
    PaddingFits(|q|);
    EncodedLength(bytes);
    PaddedStrips(q, PaddingOf(|q|));
    DecodeStripped(Text(q) + Equals(PaddingOf(|q|)), q);
    SextetsReturn(bytes);
  }

  lemma EncodedBodyText(bytes: seq<Byte>)
    ensures |EncodeBody(bytes)| == (4 * |bytes| + 2) / 3
    ensures Lacks(EncodeBody(bytes), '.')
    ensures |EncodeBody(bytes)| >= 5 <==> |bytes| >= 4
  {
    SextetCount(bytes);
    TextReturns(ToSextets(bytes));
    TextCharacters(ToSextets(bytes));
  }
}
