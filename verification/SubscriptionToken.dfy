/** Subscription tokens: `username,timestamp` in Base64, followed by ten characters of a keyed hash. */
module SubscriptionToken {
  import opened Options
  import opened Strings
  import opened Utf8
  import opened Base64Url
  import opened Numerals

  /** SHA-256, of which only the length of the digest matters. */
  type Digest = hash: seq<Byte> -> seq<Byte> | forall b :: |hash(b)| == 32 witness _ => seq(32, _ => 0)

  const SIGNATURE_LENGTH := 10
  const MIN_TOKEN_LENGTH := 15
  const JWT_PREFIX := "eyJhbGciOiJIUzI1NiIsInR5cCI6IkpXVCJ9."

  /** The first and last second of the years a date can have, 1 to 9999, counted from 1970. */
  const FIRST_SECOND := -62_135_596_800
  const LAST_SECOND := 253_402_300_799

  /** The claims of an older token that are looked at; None is an absent claim. */
  datatype Claims = Claims(access: Option<string>, sub: Option<string>, iat: Option<int>)

  /** Checks an older token against a key: (token, key) -> its claims, None when it is not accepted. */
  type JwtReader = (string, string) -> Option<Claims>

  /** The libraries the module calls: the digest, the check of older tokens, and the characters int() knows. */
  datatype Library = Library(hash: Digest, jwt: JwtReader, chars: CharTables)

  /** `Raises` is an exception that the parser does not catch. */
  datatype Outcome = NoPayload | Payload(username: string, createdAt: int) | Raises

  /** A payload dated in seconds; there are no dates outside the years 1 to 9999. */
  function Dated(username: string, seconds: int): Outcome {
    if FIRST_SECOND <= seconds <= LAST_SECOND then Payload(username, seconds) else Raises
  }

  function Signature(hash: Digest, data: string, key: string): (s: string)
    ensures |s| == SIGNATURE_LENGTH
  {
    var digest := hash(Utf8.Encode(data + key));
    EncodedBodyText(digest);
    Base64Url.Encode(digest)[..SIGNATURE_LENGTH]
  }

  function TokenData(username: string, timestamp: nat): string {
    StripEquals(Base64Url.Encode(Utf8.Encode(username + "," + Dec(timestamp))))
  }

  function CreateToken(hash: Digest, username: string, timestamp: nat, key: string): string {
    var data := TokenData(username, timestamp);
    data + Signature(hash, data, key)
  }

  // ---- Parsing

  function DecodeText(data: string): Option<string> {
    match DecodeUnpadded(data)
    case None => None
    case Some(bytes) => Utf8.Decode(bytes)
  }

  /** What stands before the first comma, and what follows it. */
  function Split(s: string): (string, Option<string>) {
    if s == "" then ("", None)
    else if s[0] == ',' then ("", Some(s[1..]))
    else
      var (field, rest) := Split(s[1..]);
      ([s[0]] + field, rest)
  }

  function Fields(chars: CharTables, text: string): Outcome {
    match Split(text).1
    case None => Raises
    case Some(rest) =>
      match ReadInt(chars, Split(rest).0)
      case None => Raises
      case Some(seconds) => Dated(Split(text).0, seconds)
  }

  function JwtOutcome(reader: JwtReader, keys: seq<string>, token: string): Outcome {
    if keys == [] then NoPayload
    else
      match reader(token, keys[0])
      case None => JwtOutcome(reader, keys[1..], token)
      case Some(claims) =>
        if claims.access != Some("subscription") then JwtOutcome(reader, keys[1..], token)
        else if claims.sub == None || claims.iat == None then Raises
        else Dated(claims.sub.value, claims.iat.value)
  }

  /** The signature of some data, as a function of the key. */
  function Signer(hash: Digest, data: string): string -> string {
    key => Signature(hash, data, key)
  }

  predicate SignedBy(sign: string -> string, keys: seq<string>, signature: string) {
    exists key :: key in keys && sign(key) == signature
  }

  function DataOf(token: string): string
    requires |token| >= SIGNATURE_LENGTH
  {
    token[..|token| - SIGNATURE_LENGTH]
  }

  function SignatureOf(token: string): string
    requires |token| >= SIGNATURE_LENGTH
  {
    token[|token| - SIGNATURE_LENGTH..]
  }

  function GetPayload(lib: Library, keys: seq<string>, token: string): Outcome {
    if |token| < MIN_TOKEN_LENGTH then NoPayload
    else if JWT_PREFIX <= token then JwtOutcome(lib.jwt, keys, token)
    else
      match DecodeText(DataOf(token))
      case None => NoPayload
      case Some(text) =>
        if SignedBy(Signer(lib.hash, DataOf(token)), keys, SignatureOf(token)) then Fields(lib.chars, text) else NoPayload
  }

  // ---- Fields of the text

  lemma {:induction false} SplitField(field: string, rest: string)
    requires Lacks(field, ',')
    ensures Split(field + "," + rest) == (field, Some(rest))
    ensures Split(field) == (field, None)
  {
    if field == "" {
      assert "" + "," + rest == "," + rest && ("," + rest)[1..] == rest;
    } else {
      SplitField(field[1..], rest);
      assert (field + "," + rest)[1..] == field[1..] + "," + rest;
      assert field == [field[0]] + field[1..];
    }
  }

  function Joined(field: string, rest: Option<string>): string {
    match rest
    case None => field
    case Some(more) => field + "," + more
  }

  lemma JoinedCons(c: char, field: string, rest: Option<string>)
    ensures Joined([c] + field, rest) == [c] + Joined(field, rest)
  {
  }

  lemma {:induction false} SplitJoins(s: string)
    ensures Lacks(Split(s).0, ',') && s == Joined(Split(s).0, Split(s).1)
  {
    if s == "" {
    } else if s[0] == ',' {
      assert s == "," + s[1..];
    } else {
      SplitJoins(s[1..]);
      JoinedCons(s[0], Split(s[1..]).0, Split(s[1..]).1);
      assert s == [s[0]] + s[1..];
    }
  }

  lemma DecLacksComma(n: nat)
    ensures Lacks(Dec(n), ',')
  {
    assert forall i | 0 <= i < |Dec(n)| :: Dec(n)[i] in Dec(n);
  }

  /** The fields written are the fields read exactly when the name has no comma and the time is a date. */
  lemma FieldsIff(chars: CharTables, username: string, timestamp: nat)
    ensures Fields(chars, username + "," + Dec(timestamp)) == Payload(username, timestamp) <==>
              ',' !in username && timestamp <= LAST_SECOND
  {
    var text := username + "," + Dec(timestamp);
    if ',' !in username {
      SplitField(username, Dec(timestamp));
      DecLacksComma(timestamp);
      SplitField(Dec(timestamp), "");
      ReadPrinted(chars, timestamp);
    } else {
      SplitJoins(text);
      assert !Lacks(username, ',');
    }
  }

  // ---- Round trip

  lemma DecodeTokenData(username: string, timestamp: nat)
    ensures DecodeText(TokenData(username, timestamp)) == Some(username + "," + Dec(timestamp))
  {
    var text := username + "," + Dec(timestamp);
    RoundTrip(Utf8.Encode(text));
    DecodeEncoded(text);
  }

  lemma TokenDataText(username: string, timestamp: nat)
    ensures Lacks(TokenData(username, timestamp), '.')
    ensures |TokenData(username, timestamp)| >= 5 <==> |Utf8.Encode(username)| + 1 + |Dec(timestamp)| >= 4
  {
    var stamp := Dec(timestamp);
    var bytes := Utf8.Encode(username + "," + stamp);
    WrittenIsStripped(bytes);
    EncodedBodyText(bytes);
    EncodeAppend(username + ",", stamp);
    EncodeAppend(username, ",");
    AsciiLength(",");
    assert Ascii(stamp) by {
      assert forall i | 0 <= i < |stamp| :: stamp[i] in stamp;
    }
    AsciiLength(stamp);
  }

  lemma SignatureText(hash: Digest, data: string, key: string)
    ensures Lacks(Signature(hash, data, key), '.')
  {
    EncodedBodyText(hash(Utf8.Encode(data + key)));
  }

  /** A created token never looks like an older one: '.' is not in the alphabet. */
  lemma CreatedIsNotJwt(hash: Digest, username: string, timestamp: nat, key: string)
    ensures !(JWT_PREFIX <= CreateToken(hash, username, timestamp, key))
  {
    var data := TokenData(username, timestamp);
    var token := CreateToken(hash, username, timestamp, key);
    TokenDataText(username, timestamp);
    SignatureText(hash, data, key);
    assert Lacks(token, '.');
    NoSuchPrefix(JWT_PREFIX, token, 36);
  }

  lemma NoSuchPrefix(p: string, s: string, i: nat)
    requires i < |p| && Lacks(s, p[i])
    ensures !(p <= s)
  {
    assert i < |s| ==> s[i] != p[i];
  }

  lemma TokenParts(hash: Digest, username: string, timestamp: nat, key: string)
    ensures var token := CreateToken(hash, username, timestamp, key);
            && |token| == |TokenData(username, timestamp)| + SIGNATURE_LENGTH
            && DataOf(token) == TokenData(username, timestamp)
            && SignatureOf(token) == Signature(hash, TokenData(username, timestamp), key)
  {
  }

  /** A created token is read as the fields of its text, wherever the signing key stands among the keys, unless it is
      too short to be read at all. */
  lemma CreatedTokenFields(lib: Library, keys: seq<string>, username: string, timestamp: nat, key: string)
    requires key in keys
    ensures GetPayload(lib, keys, CreateToken(lib.hash, username, timestamp, key)) ==
            if |Utf8.Encode(username)| + 1 + |Dec(timestamp)| >= 4 then Fields(lib.chars, username + "," + Dec(timestamp)) else NoPayload
  {
    CreatedIsNotJwt(lib.hash, username, timestamp, key);
    TokenParts(lib.hash, username, timestamp, key);
    TokenDataText(username, timestamp);
    DecodeTokenData(username, timestamp);
    assert Signer(lib.hash, TokenData(username, timestamp))(key) == Signature(lib.hash, TokenData(username, timestamp), key);
  }

  /** The round trip gives back the name and the time exactly when the name has no comma, the signed data has at least four
      bytes and the time is a date, for every list of keys that holds the signing key, in any order. */
  lemma TokenRoundTripIff(lib: Library, keys: seq<string>, username: string, timestamp: nat, key: string)
    requires key in keys
    ensures GetPayload(lib, keys, CreateToken(lib.hash, username, timestamp, key)) == Payload(username, timestamp) <==>
              ',' !in username && |Utf8.Encode(username)| + 1 + |Dec(timestamp)| >= 4 && timestamp <= LAST_SECOND
  {
    CreatedTokenFields(lib, keys, username, timestamp, key);
    FieldsIff(lib.chars, username, timestamp);
  }

  lemma StampLength(timestamp: nat)
    requires timestamp >= 100
    ensures |Dec(timestamp)| >= 3
  {
    assert |Dec(timestamp / 10 / 10)| >= 1;
    assert |Dec(timestamp / 10)| >= 2;
  }

  /** From the hundredth second of the epoch to the end of the year 9999, only the comma matters. */
  lemma TokenRoundTrip(lib: Library, keys: seq<string>, username: string, timestamp: nat, key: string)
    requires key in keys && 100 <= timestamp <= LAST_SECOND
    ensures GetPayload(lib, keys, CreateToken(lib.hash, username, timestamp, key)) == Payload(username, timestamp) <==>
              ',' !in username
  {
    TokenRoundTripIff(lib, keys, username, timestamp, key);
    LongEnough(username, timestamp);
  }

  predicate WordChar(c: char) {
    'a' <= c <= 'z' || 'A' <= c <= 'Z' || '0' <= c <= '9' || c == '_'
  }

  /** What the panel's validator demands of a username: three word characters first, and no characters but these and
      '-', '@', '.'; its pattern also lets a line break end the name. */
  predicate Admitted(username: string) {
    && |username| >= 3 && WordChar(username[0]) && WordChar(username[1]) && WordChar(username[2])
    && forall i | 0 <= i < |username| ::
         WordChar(username[i]) || username[i] in "-@." || (i == |username| - 1 && username[i] == '\n')
  }

  /** So every user of the panel gets back the name and the time from a token, at any time that is a date. */
  lemma AdmittedRoundTrip(lib: Library, keys: seq<string>, username: string, timestamp: nat, key: string)
    requires key in keys && Admitted(username) && timestamp <= LAST_SECOND
    ensures GetPayload(lib, keys, CreateToken(lib.hash, username, timestamp, key)) == Payload(username, timestamp)
  {
    AsciiLength(username);
    TokenRoundTripIff(lib, keys, username, timestamp, key);
  }

  /** What a name with a comma does: the name is cut at its first comma, and what follows is taken for the time, read as
      leniently as int() reads. */
  lemma CommaCutsTheName(lib: Library, keys: seq<string>, front: string, rest: string, timestamp: nat, key: string)
    requires key in keys && timestamp >= 100 && ',' !in front
    ensures GetPayload(lib, keys, CreateToken(lib.hash, front + "," + rest, timestamp, key)) ==
            match ReadInt(lib.chars, Split(rest).0)
            case None => Raises
            case Some(seconds) => Dated(front, seconds)
  {
    CreatedTokenFields(lib, keys, front + "," + rest, timestamp, key);
    LongEnough(front + "," + rest, timestamp);
    CutFields(lib.chars, front, rest, Dec(timestamp));
  }

  /** "a, 5" becomes the user "a" at the fifth second of 1970. */
  lemma CommaNamesAnother(lib: Library, keys: seq<string>, timestamp: nat, key: string)
    requires key in keys && timestamp >= 100
    ensures GetPayload(lib, keys, CreateToken(lib.hash, "a" + "," + " 5", timestamp, key)) == Payload("a", 5)
  {
    SplitField(" 5", "");
    ReadLeniently(lib.chars);
    CommaCutsTheName(lib, keys, "a", " 5", timestamp, key);
  }

  /** "a,b" makes the parser raise. */
  lemma CommaRaises(lib: Library, keys: seq<string>, timestamp: nat, key: string)
    requires key in keys && timestamp >= 100
    ensures GetPayload(lib, keys, CreateToken(lib.hash, "a" + "," + "b", timestamp, key)) == Raises
  {
    SplitField("b", "");
    ReadRefuses(lib.chars);
    CommaCutsTheName(lib, keys, "a", "b", timestamp, key);
  }

  lemma LongEnough(username: string, timestamp: nat)
    requires timestamp >= 100
    ensures |Utf8.Encode(username)| + 1 + |Dec(timestamp)| >= 4
  {
    StampLength(timestamp);
  }

  lemma CutFields(chars: CharTables, front: string, rest: string, stamp: string)
    requires ',' !in front
    ensures Fields(chars, front + "," + rest + "," + stamp) ==
            match ReadInt(chars, Split(rest).0)
            case None => Raises
            case Some(seconds) => Dated(front, seconds)
  {
    assert front + "," + rest + "," + stamp == front + "," + (rest + "," + stamp);
    SplitField(front, rest + "," + stamp);
    SplitBeforeComma(rest, stamp);
  }

  lemma {:induction false} SplitBeforeComma(s: string, more: string)
    ensures Split(s + "," + more).0 == Split(s).0
  {
    if s == "" {
      assert "" + "," + more == "," + more;
    } else {
      assert (s + "," + more)[1..] == s[1..] + "," + more;
      if s[0] != ',' {
        SplitBeforeComma(s[1..], more);
      }
    }
  }

  // ---- What an accepted token proves

  /** The signature is the first ten characters of the hash of data and key, in Base64. */
  ghost predicate SignsWith(hash: Digest, data: string, key: string, signature: string) {
    |signature| == 10 && signature <= Base64Url.Encode(hash(Utf8.Encode(data + key)))
  }

  lemma SignatureIff(hash: Digest, data: string, key: string, signature: string)
    ensures Signature(hash, data, key) == signature <==> SignsWith(hash, data, key, signature)
  {
    EncodedBodyText(hash(Utf8.Encode(data + key)));
  }

  lemma SignedIff(hash: Digest, data: string, keys: seq<string>, signature: string)
    ensures SignedBy(Signer(hash, data), keys, signature) <==> exists key :: key in keys && SignsWith(hash, data, key, signature)
  {
    forall key
      ensures Signer(hash, data)(key) == signature <==> SignsWith(hash, data, key, signature)
    {
      SignatureIff(hash, data, key, signature);
    }
  }

  /** A token stands for a user and a time: its data decodes, is signed with one of the keys, and starts with the name and
      a number of seconds that is a date, each ended by a comma or the end of the text. */
  ghost predicate StandsFor(lib: Library, keys: seq<string>, token: string, username: string, createdAt: int)
    requires |token| >= SIGNATURE_LENGTH
  {
    && (exists key :: key in keys && SignsWith(lib.hash, DataOf(token), key, SignatureOf(token)))
    && DecodeText(DataOf(token)).Some?
    && NamesUser(lib.chars, DecodeText(DataOf(token)).value, username, createdAt)
  }

  /** A payload is answered exactly for a token that stands for it. */
  lemma AcceptedIff(lib: Library, keys: seq<string>, token: string, username: string, createdAt: int)
    requires |token| >= MIN_TOKEN_LENGTH && !(JWT_PREFIX <= token)
    ensures GetPayload(lib, keys, token) == Payload(username, createdAt) <==> StandsFor(lib, keys, token, username, createdAt)
  {
    SignedIff(lib.hash, DataOf(token), keys, SignatureOf(token));
    match DecodeText(DataOf(token))
    case None =>
    case Some(text) => FieldsName(lib.chars, text, username, createdAt);
  }

  /** A token whose data decodes is refused exactly when no key of the list gives its ten characters. */
  lemma RefusedIff(lib: Library, keys: seq<string>, token: string)
    requires |token| >= MIN_TOKEN_LENGTH && !(JWT_PREFIX <= token) && DecodeText(DataOf(token)).Some?
    ensures GetPayload(lib, keys, token) == NoPayload <==>
              forall key | key in keys :: !SignsWith(lib.hash, DataOf(token), key, SignatureOf(token))
  {
    SignedIff(lib.hash, DataOf(token), keys, SignatureOf(token));
  }

  /** The data of one token with the signature that a key gives to other data. */
  function Exchanged(hash: Digest, data: string, signed: string, key: string): string {
    data + Signature(hash, signed, key)
  }

  /** Two digests apart: all bits set for one text, none for any other. */
  function Telling(text: seq<Byte>): Digest {
    (b: seq<Byte>) => TellingDigest(text, b)
  }

  function TellingDigest(text: seq<Byte>, b: seq<Byte>): (d: seq<Byte>)
    ensures |d| == 32
  {
    if b == text then seq(32, _ => 255) else seq(32, _ => 0)
  }

  /** The first character of a signature is that of the first six bits of the digest. */
  lemma SignedStart(hash: Digest, data: string, key: string, signature: string)
    requires SignsWith(hash, data, key, signature)
    ensures signature[0] == SextetChar(hash(Utf8.Encode(data + key))[0] / 4)
  {
    var digest := hash(Utf8.Encode(data + key));
    TextAt(ToSextets(digest), 0);
    assert Base64Url.Encode(digest)[0] == EncodeBody(digest)[0];
  }

  lemma EncodeInjective(a: string, b: string)
    ensures Utf8.Encode(a) == Utf8.Encode(b) <==> a == b
  {
    DecodeEncoded(a);
    DecodeEncoded(b);
  }

  lemma DigestsApart(hash: Digest, signed: string, key: string, data: string, other: string, signature: string)
    requires hash(Utf8.Encode(signed + key))[0] == 255 && hash(Utf8.Encode(data + other))[0] == 0
    requires SignsWith(hash, signed, key, signature)
    ensures !SignsWith(hash, data, other, signature)
  {
    SignedStart(hash, signed, key, signature);
    if SignsWith(hash, data, other, signature) {
      SignedStart(hash, data, other, signature);
    }
  }

  lemma TellingApart(signed: string, key: string, data: string, other: string, signature: string)
    requires data + other != signed + key && SignsWith(Telling(Utf8.Encode(signed + key)), signed, key, signature)
    ensures !SignsWith(Telling(Utf8.Encode(signed + key)), data, other, signature)
  {
    EncodeInjective(data + other, signed + key);
    DigestsApart(Telling(Utf8.Encode(signed + key)), signed, key, data, other, signature);
  }

  /** Data under a signature made for other data: it is refused under some hash exactly when no key of the list completes
      the data to the text that was signed. With the same key that is so whenever the data differ. */
  lemma ExchangedIsRefusedIff(lib: Library, keys: seq<string>, data: string, signed: string, key: string)
    requires |data| >= 5 && Lacks(data, '.') && DecodeText(data).Some?
    ensures (exists hash: Digest :: GetPayload(lib.(hash := hash), keys, Exchanged(hash, data, signed, key)) == NoPayload) <==>
              forall k | k in keys :: data + k != signed + key
  {
    if forall k | k in keys :: data + k != signed + key {
      ExchangedIsRefused(lib.(hash := Telling(Utf8.Encode(signed + key))), keys, data, signed, key);
    } else {
      var k :| k in keys && data + k == signed + key;
      forall hash: Digest
        ensures GetPayload(lib.(hash := hash), keys, Exchanged(hash, data, signed, key)) != NoPayload
      {
        ExchangedParts(hash, data, signed, key);
        SignatureIff(hash, data, k, Signature(hash, signed, key));
        RefusedIff(lib.(hash := hash), keys, Exchanged(hash, data, signed, key));
      }
    }
  }

  lemma ExchangedParts(hash: Digest, data: string, signed: string, key: string)
    requires |data| >= 5 && Lacks(data, '.')
    ensures var token := Exchanged(hash, data, signed, key);
            && |token| >= MIN_TOKEN_LENGTH && !(JWT_PREFIX <= token)
            && DataOf(token) == data && SignatureOf(token) == Signature(hash, signed, key)
  {
    SignatureText(hash, signed, key);
    NoSuchPrefix(JWT_PREFIX, Exchanged(hash, data, signed, key), 36);
  }

  lemma RefusedWithout(lib: Library, keys: seq<string>, data: string, signed: string, key: string)
    requires |data| >= 5 && Lacks(data, '.') && DecodeText(data).Some?
    requires forall k | k in keys :: !SignsWith(lib.hash, data, k, Signature(lib.hash, signed, key))
    ensures GetPayload(lib, keys, Exchanged(lib.hash, data, signed, key)) == NoPayload
  {
    ExchangedParts(lib.hash, data, signed, key);
    RefusedIff(lib, keys, Exchanged(lib.hash, data, signed, key));
  }

  lemma ExchangedIsRefused(lib: Library, keys: seq<string>, data: string, signed: string, key: string)
    requires |data| >= 5 && Lacks(data, '.') && DecodeText(data).Some?
    requires lib.hash == Telling(Utf8.Encode(signed + key)) && forall k | k in keys :: data + k != signed + key
    ensures GetPayload(lib, keys, Exchanged(lib.hash, data, signed, key)) == NoPayload
  {
    forall k | k in keys
      ensures !SignsWith(lib.hash, data, k, Signature(lib.hash, signed, key))
    {
      SignatureIff(lib.hash, signed, key, Signature(lib.hash, signed, key));
      TellingApart(signed, key, data, k, Signature(lib.hash, signed, key));
    }
    RefusedWithout(lib, keys, data, signed, key);
  }

  /** A created token of a foreign key is answered with nothing exactly when it is too short or no key of the list gives the
      ten characters the foreign key gave. */
  lemma ForeignKeyIff(lib: Library, keys: seq<string>, username: string, timestamp: nat, key: string)
    ensures var data := StripEquals(Base64Url.Encode(Utf8.Encode(username + "," + Dec(timestamp))));
            var given := Base64Url.Encode(lib.hash(Utf8.Encode(data + key)));
            && |given| >= 10
            && (GetPayload(lib, keys, CreateToken(lib.hash, username, timestamp, key)) == NoPayload <==>
                || |data| < 5
                || forall k | k in keys :: !(given[..10] <= Base64Url.Encode(lib.hash(Utf8.Encode(data + k)))))
  {
    var data := TokenData(username, timestamp);
    var token := CreateToken(lib.hash, username, timestamp, key);
    CreatedIsNotJwt(lib.hash, username, timestamp, key);
    TokenParts(lib.hash, username, timestamp, key);
    DecodeTokenData(username, timestamp);
    EncodedBodyText(lib.hash(Utf8.Encode(data + key)));
    SignatureIff(lib.hash, data, key, Signature(lib.hash, data, key));
    if |data| >= 5 {
      RefusedIff(lib, keys, token);
    }
  }

  /** Under some hash a token is refused exactly when its key is not in the list, or the token is too short. */
  lemma ForeignKeyIsRefusedIff(lib: Library, keys: seq<string>, username: string, timestamp: nat, key: string)
    ensures (exists hash: Digest :: GetPayload(lib.(hash := hash), keys, CreateToken(hash, username, timestamp, key)) == NoPayload) <==>
              key !in keys || |TokenData(username, timestamp)| < 5
  {
    var data := TokenData(username, timestamp);
    if |data| >= 5 {
      TokenDataText(username, timestamp);
      DecodeTokenData(username, timestamp);
      forall k
        ensures data + k == data + key <==> k == key
      {
        CommonFront(data, k, key);
      }
      ExchangedIsRefusedIff(lib, keys, data, data, key);
    } else {
      ForeignKeyIff(lib, keys, username, timestamp, key);
    }
  }

  /** The signature of one token does not carry over: under some hash the data of another user or time is refused with it. */
  lemma ExchangedDataIsRefused(lib: Library, key: string, username: string, timestamp: nat, other: string, otherTime: nat)
    requires |TokenData(other, otherTime)| >= 5
    requires username + "," + Dec(timestamp) != other + "," + Dec(otherTime)
    ensures exists hash: Digest ::
              GetPayload(lib.(hash := hash), [key], Exchanged(hash, TokenData(other, otherTime), TokenData(username, timestamp), key)) == NoPayload
  {
    var data, signed := TokenData(other, otherTime), TokenData(username, timestamp);
    TokenDataText(other, otherTime);
    DecodeTokenData(other, otherTime);
    DecodeTokenData(username, timestamp);
    CommonBack(data, signed, key);
    ExchangedIsRefusedIff(lib, [key], data, signed, key);
  }

  ghost predicate NamesUser(chars: CharTables, text: string, username: string, createdAt: int) {
    exists stamp: string, tail: string :: NamesUserBy(chars, text, username, createdAt, stamp, tail)
  }

  predicate NamesUserBy(chars: CharTables, text: string, username: string, createdAt: int, stamp: string, tail: string) {
    && ',' !in username && Lacks(stamp, ',')
    && ReadInt(chars, stamp) == Some(createdAt) && FIRST_SECOND <= createdAt <= LAST_SECOND
    && text == username + "," + stamp + tail
    && (tail == "" || tail[0] == ',')
  }

  lemma FieldsName(chars: CharTables, text: string, username: string, createdAt: int)
    ensures Fields(chars, text) == Payload(username, createdAt) <==> NamesUser(chars, text, username, createdAt)
  {
    if Fields(chars, text) == Payload(username, createdAt) {
      FieldsAreNamed(chars, text, username, createdAt);
    }
    if NamesUser(chars, text, username, createdAt) {
      var stamp: string, tail: string :| NamesUserBy(chars, text, username, createdAt, stamp, tail);
      SplitNamed(username, stamp, tail);
    }
  }

  lemma FieldsAreNamed(chars: CharTables, text: string, username: string, createdAt: int)
    requires Fields(chars, text) == Payload(username, createdAt)
    ensures NamesUser(chars, text, username, createdAt)
  {
    SplitJoins(text);
    var rest := Split(text).1.value;
    SplitJoins(rest);
    var stamp := Split(rest).0;
    var tail := if Split(rest).1.Some? then "," + Split(rest).1.value else "";
    assert rest == stamp + tail;
    assert username + "," + rest == username + "," + stamp + tail;
    assert NamesUserBy(chars, text, username, createdAt, stamp, tail);
  }

  lemma SplitNamed(username: string, stamp: string, tail: string)
    requires ',' !in username && Lacks(stamp, ',') && (tail == "" || tail[0] == ',')
    ensures var (field, rest) := Split(username + "," + stamp + tail);
            field == username && rest.Some? && Split(rest.value).0 == stamp
  {
    assert username + "," + stamp + tail == username + "," + (stamp + tail);
    SplitField(username, stamp + tail);
    SplitStamp(stamp, tail);
  }

  lemma SplitStamp(stamp: string, tail: string)
    requires Lacks(stamp, ',') && (tail == "" || tail[0] == ',')
    ensures Split(stamp + tail).0 == stamp
  {
    if tail == "" {
      assert stamp + tail == stamp;
      SplitField(stamp, "");
    } else {
      assert stamp + tail == stamp + "," + tail[1..];
      SplitField(stamp, tail[1..]);
    }
  }

  // ---- Older tokens and the order of the keys

  /** The key opens an older token, and it is a subscription token. */
  predicate Opens(reader: JwtReader, key: string, token: string) {
    reader(token, key).Some? && reader(token, key).value.access == Some("subscription")
  }

  /** It names this user and a time that is a date. */
  predicate ClaimsName(reader: JwtReader, key: string, token: string, username: string, createdAt: int) {
    && Opens(reader, key, token)
    && reader(token, key).value.sub == Some(username)
    && reader(token, key).value.iat == Some(createdAt) && FIRST_SECOND <= createdAt <= LAST_SECOND
  }

  ghost predicate OpensFirst(reader: JwtReader, keys: seq<string>, token: string, i: nat) {
    i < |keys| && Opens(reader, keys[i], token) && forall j | 0 <= j < i :: !Opens(reader, keys[j], token)
  }

  /** The first key that opens the token decides alone. */
  lemma {:induction false} FirstKeyDecides(reader: JwtReader, keys: seq<string>, token: string, i: nat)
    requires OpensFirst(reader, keys, token, i)
    ensures JwtOutcome(reader, keys, token) == JwtOutcome(reader, [keys[i]], token) != NoPayload
    ensures forall username, createdAt :: JwtOutcome(reader, keys, token) == Payload(username, createdAt) <==>
              ClaimsName(reader, keys[i], token, username, createdAt)
  {
    if i > 0 {
      assert !Opens(reader, keys[0], token);
      FirstKeyDecides(reader, keys[1..], token, i - 1);
    }
  }

  lemma {:induction false} NoKeyOpens(reader: JwtReader, keys: seq<string>, token: string)
    requires forall key | key in keys :: !Opens(reader, key, token)
    ensures JwtOutcome(reader, keys, token) == NoPayload
  {
    if keys != [] {
      assert keys[0] in keys;
      NoKeyOpens(reader, keys[1..], token);
    }
  }

  lemma {:induction false} SomeKeyIsFirst(reader: JwtReader, keys: seq<string>, token: string) returns (i: nat)
    requires exists key :: key in keys && Opens(reader, key, token)
    ensures OpensFirst(reader, keys, token, i)
  {
    if Opens(reader, keys[0], token) {
      i := 0;
    } else {
      i := SomeKeyIsFirst(reader, keys[1..], token);
      i := i + 1;
    }
  }

  lemma OneFirst(reader: JwtReader, keys: seq<string>, token: string, i: nat, j: nat)
    requires OpensFirst(reader, keys, token, i) && OpensFirst(reader, keys, token, j)
    ensures i == j
  {
  }

  /** An older token is answered with nothing exactly when no key opens it, and with a payload exactly when the first key that
      does names that user and date. */
  lemma OlderTokenIff(reader: JwtReader, keys: seq<string>, token: string)
    ensures JwtOutcome(reader, keys, token) == NoPayload <==> forall key | key in keys :: !Opens(reader, key, token)
    ensures forall username, createdAt :: JwtOutcome(reader, keys, token) == Payload(username, createdAt) <==>
              exists i: nat :: OpensFirst(reader, keys, token, i) && ClaimsName(reader, keys[i], token, username, createdAt)
  {
    if exists key :: key in keys && Opens(reader, key, token) {
      var i := SomeKeyIsFirst(reader, keys, token);
      FirstKeyDecides(reader, keys, token, i);
      forall j | OpensFirst(reader, keys, token, j)
        ensures j == i
      {
        OneFirst(reader, keys, token, i, j);
      }
    } else {
      NoKeyOpens(reader, keys, token);
    }
  }

  /** All keys that open an older token answer it alike. */
  ghost predicate KeysAgree(reader: JwtReader, keys: seq<string>, token: string) {
    forall a, b | a in keys && b in keys && Opens(reader, a, token) && Opens(reader, b, token) ::
      JwtOutcome(reader, [a], token) == JwtOutcome(reader, [b], token)
  }

  /** Then any list of the same keys answers the same, and so it is for tokens that are no older ones. */
  lemma KeyOrderIsIrrelevant(lib: Library, keys: seq<string>, others: seq<string>, token: string)
    requires forall key :: key in keys <==> key in others
    requires |token| < MIN_TOKEN_LENGTH || !(JWT_PREFIX <= token) || KeysAgree(lib.jwt, keys, token)
    ensures GetPayload(lib, keys, token) == GetPayload(lib, others, token)
  {
    if |token| >= MIN_TOKEN_LENGTH && JWT_PREFIX <= token {
      if exists key :: key in keys && Opens(lib.jwt, key, token) {
        var i := SomeKeyIsFirst(lib.jwt, keys, token);
        var j := SomeKeyIsFirst(lib.jwt, others, token);
        FirstKeyDecides(lib.jwt, keys, token, i);
        FirstKeyDecides(lib.jwt, others, token, j);
        assert keys[i] in keys && others[j] in others;
      } else {
        NoKeyOpens(lib.jwt, keys, token);
        NoKeyOpens(lib.jwt, others, token);
      }
    } else if |token| >= MIN_TOKEN_LENGTH {
      assert SignedBy(Signer(lib.hash, DataOf(token)), keys, SignatureOf(token)) == SignedBy(Signer(lib.hash, DataOf(token)), others, SignatureOf(token));
    }
  }

  lemma KeyInFront(keys: seq<string>, key: string) returns (others: seq<string>)
    requires key in keys
    ensures multiset(others) == multiset(keys) && others != [] && others[0] == key
  {
    var i :| 0 <= i < |keys| && keys[i] == key;
    assert keys == keys[..i] + [key] + keys[i + 1..];
    others := [key] + keys[..i] + keys[i + 1..];
  }

  /** The order of the keys matters exactly for an older token that two keys open with different answers. */
  lemma KeyOrderIff(lib: Library, keys: seq<string>, token: string)
    ensures (forall others: seq<string> | multiset(others) == multiset(keys) :: GetPayload(lib, others, token) == GetPayload(lib, keys, token)) <==>
              |token| < MIN_TOKEN_LENGTH || !(JWT_PREFIX <= token) || KeysAgree(lib.jwt, keys, token)
  {
    if |token| < MIN_TOKEN_LENGTH || !(JWT_PREFIX <= token) || KeysAgree(lib.jwt, keys, token) {
      forall others: seq<string> | multiset(others) == multiset(keys)
        ensures GetPayload(lib, others, token) == GetPayload(lib, keys, token)
      {
        SameMembers(keys, others);
        KeyOrderIsIrrelevant(lib, keys, others, token);
      }
    } else {
      var a, b :| a in keys && b in keys && Opens(lib.jwt, a, token) && Opens(lib.jwt, b, token)
                  && JwtOutcome(lib.jwt, [a], token) != JwtOutcome(lib.jwt, [b], token);
      var key := if JwtOutcome(lib.jwt, keys, token) == JwtOutcome(lib.jwt, [a], token) then b else a;
      var others := KeyInFront(keys, key);
      assert OpensFirst(lib.jwt, others, token, 0);
      FirstKeyDecides(lib.jwt, others, token, 0);
      assert GetPayload(lib, others, token) != GetPayload(lib, keys, token);
    }
  }

  lemma SameMembers(keys: seq<string>, others: seq<string>)
    requires multiset(others) == multiset(keys)
    ensures forall key :: key in keys <==> key in others
  {
    forall key: string
      ensures key in keys <==> key in others
    {
      assert key in keys <==> key in multiset(keys);
      assert key in others <==> key in multiset(others);
    }
  }

  // ---- The methods

  /** The current key first, then every other key that is not empty, each once. */
  method GetSecretKeys(primary: string, legacy: seq<string>) returns (keys: seq<string>)
    ensures keys != [] && keys[0] == primary
    ensures forall i, j | 0 <= i < j < |keys| :: keys[i] != keys[j]
    ensures forall key :: key in keys <==> key == primary || (key != "" && key in legacy)
  {
    keys := [primary];
    for i := 0 to |legacy|
      invariant keys != [] && keys[0] == primary
      invariant forall i, j | 0 <= i < j < |keys| :: keys[i] != keys[j]
      invariant forall key :: key in keys <==> key == primary || (key != "" && key in legacy[..i])
    {
      assert legacy[..i + 1] == legacy[..i] + [legacy[i]];
      if legacy[i] != "" && legacy[i] !in keys {
        keys := keys + [legacy[i]];
      }
    }
    assert legacy[..|legacy|] == legacy;
  }

  method ReadJwt(reader: JwtReader, keys: seq<string>, token: string) returns (r: Outcome)
    ensures r == NoPayload <==> forall key | key in keys :: !Opens(reader, key, token)
    ensures forall username, createdAt :: r == Payload(username, createdAt) <==>
              exists i: nat :: OpensFirst(reader, keys, token, i) && ClaimsName(reader, keys[i], token, username, createdAt)
    ensures r == JwtOutcome(reader, keys, token)
  {
    OlderTokenIff(reader, keys, token);
    for i := 0 to |keys|
      invariant JwtOutcome(reader, keys, token) == JwtOutcome(reader, keys[i..], token)
    {
      assert keys[i..][1..] == keys[i + 1..];
      var payload := reader(token, keys[i]);
      if payload == None {
        continue;
      }
      var claims := payload.value;
      if claims.access == Some("subscription") {
        if claims.sub == None || claims.iat == None {
          return Raises;
        }
        return Dated(claims.sub.value, claims.iat.value);
      }
    }
    r := NoPayload;
  }

  method ReadSigned(sign: string -> string, chars: CharTables, keys: seq<string>, signature: string, text: string) returns (r: Outcome)
    ensures r == if SignedBy(sign, keys, signature) then Fields(chars, text) else NoPayload
  {
    for i := 0 to |keys|
      invariant forall j | 0 <= j < i :: sign(keys[j]) != signature
    {
      if sign(keys[i]) == signature {
        assert keys[i] in keys;
        return Fields(chars, text);
      }
    }
    r := NoPayload;
  }

  method GetSubscriptionPayload(lib: Library, keys: seq<string>, token: string) returns (r: Outcome)
    ensures |token| >= MIN_TOKEN_LENGTH && !(JWT_PREFIX <= token) ==>
              forall username, createdAt :: r == Payload(username, createdAt) <==> StandsFor(lib, keys, token, username, createdAt)
    ensures |token| >= MIN_TOKEN_LENGTH && JWT_PREFIX <= token ==>
              forall username, createdAt :: r == Payload(username, createdAt) <==>
                exists i: nat :: OpensFirst(lib.jwt, keys, token, i) && ClaimsName(lib.jwt, keys[i], token, username, createdAt)
    ensures |token| < MIN_TOKEN_LENGTH ==> r == NoPayload
    ensures r == GetPayload(lib, keys, token)
  {
    if |token| < MIN_TOKEN_LENGTH {
      return NoPayload;
    }
    if JWT_PREFIX <= token {
      r := ReadJwt(lib.jwt, keys, token);
      return;
    }
    forall username, createdAt
      ensures GetPayload(lib, keys, token) == Payload(username, createdAt) <==> StandsFor(lib, keys, token, username, createdAt)
    {
      AcceptedIff(lib, keys, token, username, createdAt);
    }
    var text := DecodeText(DataOf(token));
    if text == None {
      return NoPayload;
    }
    r := ReadSigned(Signer(lib.hash, DataOf(token)), lib.chars, keys, SignatureOf(token), text.value);
  }
}
