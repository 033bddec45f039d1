/** Splitting at a delimiter, and the tokens and password records built on base64url. */
module Security {
  import opened Bytes
  import opened Numerals
  import opened Base64Url

  // --- Splitting ------------------------------------------------------------------------------------

  /** `std::getline` on `d` until the stream ends: a delimiter at the very end starts no further token. */
  function Tokens(s: string, d: char): seq<string>
    decreases |s|
  {
    if s == "" then []
    else
      match Find(s, [d], 0)
      case None => [s]
      case Some(k) => [s[..k]] + Tokens(s[k + 1..], d)
  }

  method Split(s: string, d: char) returns (tokens: seq<string>)
    ensures tokens == Tokens(s, d)
  {
    hide Find;
    tokens := [];
    var pos := 0;
    while pos < |s|
      invariant 0 <= pos <= |s|
      invariant tokens + Tokens(s[pos..], d) == Tokens(s, d)
    {
      var rest := s[pos..];
      var end := Find(rest, [d], 0);
      if end.None? {
        return tokens + [rest];
      }
      tokens := tokens + [rest[..end.value]];
      assert Tokens(rest, d) == [rest[..end.value]] + Tokens(rest[end.value + 1..], d);
      assert rest[end.value + 1..] == s[pos + end.value + 1..];
      hide Tokens;
      pos := pos + end.value + 1;
    }
  }

  function Join(parts: seq<string>, d: char): string
  {
    if |parts| == 0 then ""
    else if |parts| == 1 then parts[0]
    else parts[0] + [d] + Join(parts[1..], d)
  }

  lemma JoinThree(a: string, b: string, c: string, d: char)
    ensures Join([a, b, c], d) == a + [d] + b + [d] + c
  {
    assert [a, b, c][1..] == [b, c] && [b, c][1..] == [c];
    assert Join([b, c], d) == b + [d] + c;
    assert a + [d] + (b + [d] + c) == a + [d] + b + [d] + c;
  }

  lemma JoinFour(a: string, b: string, c: string, e: string, d: char)
    ensures Join([a, b, c, e], d) == a + [d] + b + [d] + c + [d] + e
  {
    assert [a, b, c, e][1..] == [b, c, e];
    JoinThree(b, c, e, d);
    assert a + [d] + (b + [d] + c + [d] + e) == a + [d] + b + [d] + c + [d] + e;
  }

  lemma TokensOfJoined(first: string, t: string, d: char)
    requires Free(first, d)
    ensures Tokens(first + [d] + t, d) == [first] + Tokens(t, d)
  {
    var s := first + [d] + t;
    FindChar(s, d, 0, |first|);
    assert s[..|first|] == first && s[|first| + 1..] == t;
  }

  /** Splitting recovers the joined parts, except that an empty last part is lost. */
  lemma {:induction false} SplitJoin(parts: seq<string>, d: char)
    requires forall p | p in parts :: Free(p, d)
    ensures Tokens(Join(parts, d), d)
         == if parts != [] && parts[|parts| - 1] == "" then parts[..|parts| - 1] else parts
  {
    if |parts| == 1 {
      assert parts[0] in parts;
      FindCharNone(parts[0], d, 0);
    } else if |parts| > 1 {
      hide Tokens;
      assert parts[0] in parts;
      SplitJoin(parts[1..], d);
      TokensOfJoined(parts[0], Join(parts[1..], d), d);
      assert parts == [parts[0]] + parts[1..];
    }
  }

  /** Symbols of base64url are no delimiters. */
  lemma EncodingFree(s: string, d: char)
    requires Octets(s) && (d == '.' || d == '$')
    ensures Free(Encoding(s), d)
  {
    hide Encoding, Symbol;
    EncodingShape(s);
    assert ValueOf(d).None?;
  }

  // --- JSON web tokens ------------------------------------------------------------------------------

  /** JSON values as far as the token functions look at them. */
  datatype Json = Null | Boolean(truth: bool) | Number(number: int) | Text(text: string)
    | List(items: seq<Json>) | Object(members: map<string, Json>)

  type OctetString = s: string | Octets(s) witness ""

  /** The libraries the program calls. `dump` throws (None) on text that is not UTF-8. */
  datatype Libraries = Libraries(
    dump: Json -> Option<OctetString>,
    parse: string -> Option<Json>,
    hmac: (string, string) -> OctetString,
    pbkdf2: (string, string, int, nat) -> Option<OctetString>)
  {
    /** Parsing inverts printing. */
    predicate ReadsBack(j: Json)
    {
      dump(j).Some? ==> parse(dump(j).value) == Some(j)
    }

    /** A digest has its length. */
    predicate FullDigest(data: string, key: string)
    {
      |hmac(data, key)| == HASH_LENGTH
    }

    predicate FullKey(password: string, salt: string, n: int, size: nat)
    {
      pbkdf2(password, salt, n, size).Some? ==> |pbkdf2(password, salt, n, size).value| == size
    }

    /** What the theorems need of them. */
    ghost predicate Sound()
    {
      && (forall j: Json :: ReadsBack(j))
      && (forall data: string, key: string :: FullDigest(data, key))
      && (forall password: string, salt: string, n: int, size: nat :: FullKey(password, salt, n, size))
    }
  }

  const SECONDS_PER_DAY: int := 24 * 3600

  function DecodeBase64(s: string): string { Decoding(SymbolPrefix(s)) }

  function Header(): Json { Object(map["alg" := Text("HS256"), "typ" := Text("JWT")]) }

  function Payload(user: int, name: string, expires: int): Json
  {
    Object(map["user_id" := Number(user), "username" := Text(name), "exp" := Number(expires)])
  }

  /** The first two parts of a token issued at `now`; None where printing throws. */
  function SigningInput(lib: Libraries, user: int, name: string, now: int): Option<string>
  {
    match (lib.dump(Header()), lib.dump(Payload(user, name, now + SECONDS_PER_DAY)))
    case (Some(header), Some(payload)) => Some(Encoding(header) + "." + Encoding(payload))
    case (_, _) => None
  }

  /** `generateJWT` at time `now`. */
  function GenerateToken(lib: Libraries, user: int, name: string, secret: string, now: int): Option<string>
  {
    match SigningInput(lib, user, name, now)
    case None => None
    case Some(input) => Some(input + "." + Encoding(lib.hmac(input, secret)))
  }

  /** `validateJWT` at time `now`. */
  predicate ValidateToken(lib: Libraries, token: string, secret: string, now: int)
  {
    var parts := Tokens(token, '.');
    && |parts| == 3
    && DecodeBase64(parts[2]) == lib.hmac(parts[0] + "." + parts[1], secret)
    && (match lib.parse(DecodeBase64(parts[0]))
        case Some(Object(header)) => "alg" in header && header["alg"] == Text("HS256")
        case _ => false)
    && (match lib.parse(DecodeBase64(parts[1]))
        case Some(Object(payload)) =>
          "exp" in payload && payload["exp"].Number? && now < payload["exp"].number
        case _ => false)
  }

  /** The three parts of a token come apart again, and each decodes to what was encoded. */
  lemma ThreeParts(header: string, payload: string, signature: string)
    requires Octets(header) && Octets(payload) && Octets(signature) && signature != ""
    ensures Tokens(Encoding(header) + "." + Encoding(payload) + "." + Encoding(signature), '.')
         == [Encoding(header), Encoding(payload), Encoding(signature)]
  {
    hide Encoding, Tokens, Join;
    var parts := [Encoding(header), Encoding(payload), Encoding(signature)];
    EncodingFree(header, '.');
    EncodingFree(payload, '.');
    EncodingFree(signature, '.');
    EncodingShape(signature);
    SplitJoin(parts, '.');
    JoinThree(parts[0], parts[1], parts[2], '.');
  }

  /** What the two checks of a token look for in its parts. */
  predicate SaysAlgorithm(header: Json)
  {
    header.Object? && "alg" in header.members && header.members["alg"] == Text("HS256")
  }

  predicate ExpiresAfter(payload: Json, now: int)
  {
    payload.Object? && "exp" in payload.members && payload.members["exp"].Number? && now < payload.members["exp"].number
  }

  /** Any token that is put together of a printed header, a printed payload and a signature is accepted exactly when the
      signature is that of the first two parts under the secret, the header names the algorithm, and the payload has
      not expired. */
  lemma {:induction false} PrintedTokenIff(lib: Libraries, header: Json, payload: Json, signature: string,
                                           secret: string, now: int)
    requires lib.Sound() && lib.dump(header).Some? && lib.dump(payload).Some? && Octets(signature) && signature != ""
    ensures var input := Encoding(lib.dump(header).value) + "." + Encoding(lib.dump(payload).value);
            (ValidateToken(lib, input + "." + Encoding(signature), secret, now)
             <==> signature == lib.hmac(input, secret) && SaysAlgorithm(header) && ExpiresAfter(payload, now))
  {
    hide Encoding, Decoding, SymbolPrefix, Tokens;
    var h, p := lib.dump(header).value, lib.dump(payload).value;
    assert lib.ReadsBack(header) && lib.ReadsBack(payload);
    ThreeParts(h, p, signature);
    RoundTrip(h);
    RoundTrip(p);
    RoundTrip(signature);
    assert lib.parse(h) == Some(header) && lib.parse(p) == Some(payload);
  }

  /** Anything but three parts between dots is no token. */
  lemma OtherPartsRefused(lib: Libraries, parts: seq<string>, secret: string, now: int)
    requires |parts| != 3 && (forall p | p in parts :: Free(p, '.')) && (parts != [] ==> parts[|parts| - 1] != "")
    ensures !ValidateToken(lib, Join(parts, '.'), secret, now)
  {
    hide Tokens, Join;
    SplitJoin(parts, '.');
  }

  /** A token issued at `issued` is valid at `now` under `other` exactly when it is not yet a day old and
      `other` signs its first two parts as the issuing secret does; so under the same secret, exactly for a
      day, whatever the user. */
  lemma {:induction false} FreshTokenValid(lib: Libraries, user: int, name: string, secret: string, issued: int,
                        other: string, now: int)
    requires lib.Sound()
    requires GenerateToken(lib, user, name, secret, issued).Some?
    ensures ValidateToken(lib, GenerateToken(lib, user, name, secret, issued).value, other, now)
       <==> now < issued + 86400
            && var input := SigningInput(lib, user, name, issued).value;
               lib.hmac(input, other) == lib.hmac(input, secret)
  {
    hide Encoding, Decoding, SymbolPrefix, Tokens;
    var header, payload := lib.dump(Header()).value, lib.dump(Payload(user, name, issued + SECONDS_PER_DAY)).value;
    var input := Encoding(header) + "." + Encoding(payload);
    var signature := lib.hmac(input, secret);
    assert lib.FullDigest(input, secret) && lib.ReadsBack(Header());
    assert lib.ReadsBack(Payload(user, name, issued + SECONDS_PER_DAY));
    ThreeParts(header, payload, signature);
    RoundTrip(header);
    RoundTrip(payload);
    RoundTrip(signature);
    assert lib.parse(header) == Some(Header());
    assert lib.parse(payload) == Some(Payload(user, name, issued + SECONDS_PER_DAY));
  }

  // --- Password records -----------------------------------------------------------------------------

  const ITERATIONS: nat := 200000
  const HASH_LENGTH: nat := 32
  const SCHEME := "pbkdf2_sha256"

  /** `hashPassword` with the salt the random generator supplied; None where the derivation fails. */
  function HashPassword(lib: Libraries, password: string, salt: string): Option<string>
    requires Octets(salt)
  {
    match lib.pbkdf2(password, salt, ITERATIONS, HASH_LENGTH)
    case None => None
    case Some(hash) =>
      Some(SCHEME + "$" + Decimal(ITERATIONS) + "$" + Encoding(salt) + "$" + Encoding(hash))
  }

  predicate VerifyPassword(lib: Libraries, password: string, stored: string)
  {
    var parts := Tokens(stored, '$');
    && |parts| == 4 && parts[0] == SCHEME
    && Stoi(parts[1]).Some? && Stoi(parts[1]).value > 0
    && var salt, expected := DecodeBase64(parts[2]), DecodeBase64(parts[3]);
       && salt != "" && expected != ""
       && lib.pbkdf2(password, salt, Stoi(parts[1]).value, |expected|) == Some(expected)
  }

  lemma FourParts(scheme: string, n: nat, salt: string, hash: string)
    requires Free(scheme, '$') && Octets(salt) && Octets(hash) && hash != ""
    ensures Tokens(scheme + "$" + Decimal(n) + "$" + Encoding(salt) + "$" + Encoding(hash), '$')
         == [scheme, Decimal(n), Encoding(salt), Encoding(hash)]
  {
    hide Encoding, Tokens, Decimal, Join;
    var parts := [scheme, Decimal(n), Encoding(salt), Encoding(hash)];
    EncodingFree(salt, '$');
    EncodingFree(hash, '$');
    EncodingShape(hash);
    assert Free(Decimal(n), '$');
    SplitJoin(parts, '$');
    JoinFour(parts[0], parts[1], parts[2], parts[3], '$');
  }

  /** Any record accepts exactly the passwords whose derivation, with the record's own salt, number of iterations and
      length, is the one recorded; none if it is of another scheme, or has no iterations or no salt. */
  lemma RecordVerifiesIff(lib: Libraries, scheme: string, salt: string, hash: string, n: nat, attempt: string)
    requires Free(scheme, '$') && Octets(salt) && Octets(hash) && hash != "" && n < TWO_31
    ensures VerifyPassword(lib, attempt, scheme + "$" + Decimal(n) + "$" + Encoding(salt) + "$" + Encoding(hash))
       <==> scheme == SCHEME && n > 0 && salt != "" && lib.pbkdf2(attempt, salt, n, |hash|) == Some(hash)
  {
    hide Encoding, Decoding, SymbolPrefix, Tokens, Decimal, Stoi;
    FourParts(scheme, n, salt, hash);
    ReadDecimal(n);
    RoundTrip(salt);
    RoundTrip(hash);
  }

  /** A stored record accepts exactly the passwords with the same derivation from its salt; so the password
      it was made of. */
  lemma StoredPasswordVerifies(lib: Libraries, password: string, salt: string, attempt: string)
    requires lib.Sound() && Octets(salt) && salt != ""
    requires HashPassword(lib, password, salt).Some?
    ensures VerifyPassword(lib, attempt, HashPassword(lib, password, salt).value)
       <==> lib.pbkdf2(attempt, salt, ITERATIONS, HASH_LENGTH) == lib.pbkdf2(password, salt, ITERATIONS, HASH_LENGTH)
  {
    hide Encoding, Decoding, SymbolPrefix, Tokens, Decimal, Stoi;
    var hash := lib.pbkdf2(password, salt, ITERATIONS, HASH_LENGTH).value;
    assert lib.FullKey(password, salt, ITERATIONS, HASH_LENGTH);
    assert Free(SCHEME, '$');
    FourParts(SCHEME, ITERATIONS, salt, hash);
    ReadDecimal(ITERATIONS);
    RoundTrip(salt);
    RoundTrip(hash);
  }
}
