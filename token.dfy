/** `Token` from src/Authentification/token.ts: the two token issuers
    and `decode_token`, the parser of `Authorization: Bearer <token>`.
    jsonwebtoken's `sign`, `verify` and `decode` are foreign code; they
    enter as the function values of a `JwtLib`. */
module Token {
  import opened Wrappers
  import opened ObjectIds
  import opened Http

  // ---------------------------------------------------------------
  // JavaScript's `String.prototype.split(" ")`
  // ---------------------------------------------------------------

  function SpaceCount(s: string): nat {
    if s == [] then 0 else (if s[0] == ' ' then 1 else 0) + SpaceCount(s[1..])
  }

  /** `s.split(" ")`: the maximal space-free pieces between single
      spaces, empty pieces included, never an empty array. */
  function Split(s: string): (parts: seq<string>)
    ensures |parts| == SpaceCount(s) + 1
    ensures forall i :: 0 <= i < |parts| ==> ' ' !in parts[i]
  {
    if s == [] then [""]
    else if s[0] == ' ' then [""] + Split(s[1..])
    else
      var rest := Split(s[1..]);
      [[s[0]] + rest[0]] + rest[1..]
  }

  /** `parts.join(" ")`. */
  function Join(parts: seq<string>): string
    requires |parts| >= 1
  {
    if |parts| == 1 then parts[0] else parts[0] + " " + Join(parts[1..])
  }

  /** Joining the pieces with single spaces gives back the text. */
  lemma {:induction false} JoinSplit(s: string)
    ensures Join(Split(s)) == s
  {
    if s == [] {
    } else if s[0] == ' ' {
      JoinSplit(s[1..]);
      assert Split(s)[1..] == Split(s[1..]);
    } else {
      JoinSplit(s[1..]);
      var rest := Split(s[1..]);
      if |rest| == 1 {
        assert Split(s) == [[s[0]] + rest[0]];
      } else {
        assert Split(s)[1..] == rest[1..];
        assert Join(rest) == rest[0] + " " + Join(rest[1..]);
      }
    }
  }

  /** Splitting space-free pieces joined by single spaces gives back
      the pieces. */
  lemma {:induction false} SplitJoin(parts: seq<string>)
    requires |parts| >= 1
    requires forall i :: 0 <= i < |parts| ==> ' ' !in parts[i]
    ensures Split(Join(parts)) == parts
  {
    if |parts| == 1 {
      SplitPiece(parts[0], []);
      assert parts[0] + "" == parts[0];
      assert parts == [parts[0]];
    } else {
      SplitJoin(parts[1..]);
      SplitPiece(parts[0], [" " + Join(parts[1..])]);
      SplitSpace(Join(parts[1..]));
      assert Split(" " + Join(parts[1..])) == [""] + parts[1..];
      assert parts[0] + " " + Join(parts[1..]) == parts[0] + (" " + Join(parts[1..]));
      assert Split(Join(parts)) == [parts[0] + ""] + parts[1..];
      assert parts[0] + "" == parts[0];
      assert [parts[0]] + parts[1..] == parts;
    }
  }

  /** A text starting with a space splits into an empty piece and the rest. */
  lemma SplitSpace(t: string)
    ensures Split(" " + t) == [""] + Split(t)
  {
    assert (" " + t)[1..] == t;
  }

  /** A space-free prefix glues onto the first piece of what follows it;
      `more` holds that follower (nothing, or a text starting with a space). */
  lemma {:induction false} SplitPiece(w: string, more: seq<string>)
    requires ' ' !in w
    requires |more| <= 1 && (|more| == 1 ==> |more[0]| > 0 && more[0][0] == ' ')
    ensures var tail := if |more| == 0 then "" else more[0];
      Split(w + tail) == [w + Split(tail)[0]] + Split(tail)[1..]
  {
    var tail := if |more| == 0 then "" else more[0];
    if w == [] {
      assert w + tail == tail;
      assert |Split(tail)| >= 1;
      assert Split(tail) == [Split(tail)[0]] + Split(tail)[1..];
      assert w + Split(tail)[0] == Split(tail)[0];
    } else {
      SplitPiece(w[1..], more);
      assert (w + tail)[1..] == w[1..] + tail;
      assert (w + tail)[0] == w[0];
      assert [w[0]] + (w[1..] + Split(tail)[0]) == w + Split(tail)[0];
    }
  }

  /** The round trip of the header parse: for a space-free token, the
      parts of `"Bearer " + t` are exactly `"Bearer"` and `t`. */
  lemma BearerSplit(t: string)
    requires ' ' !in t
    ensures Split("Bearer " + t) == ["Bearer", t]
  {
    SplitJoin(["Bearer", t]);
    assert Join(["Bearer", t]) == "Bearer " + t;
  }

  // ---------------------------------------------------------------
  // jsonwebtoken, seen from outside
  // ---------------------------------------------------------------

  /** A signed payload: the claim name, the user id it carries, and
      whether the id was turned into a string before signing. */
  datatype Payload = Payload(claim: string, subject: ObjectId, stringified: bool)

  /** `jsonwebtoken.decode(token, { complete: true })`. */
  datatype Decoded = Decoded(payload: Payload, signature: string)

  /** `sign(payload, secret, expiresIn)`, `verify(token, key)` (the
      clock is part of the function) and `decode(token)`. */
  datatype JwtLib = JwtLib(
    sign: (Payload, string, string) -> string,
    verify: (string, string) -> bool,
    decode: string -> Option<Decoded>)

  /** Signed tokens are space-free, verify under their own key, and
      decode to what was signed (a token checked before it expires). */
  ghost predicate Faithful(jwt: JwtLib) {
    forall p, k, ttl :: ' ' !in jwt.sign(p, k, ttl) && jwt.verify(jwt.sign(p, k, ttl), k)
      && jwt.decode(jwt.sign(p, k, ttl)).Some? && jwt.decode(jwt.sign(p, k, ttl)).value.payload == p
  }

  /** A token verifies under no key but the one it was signed with. */
  ghost predicate KeyBound(jwt: JwtLib) {
    forall p, k, ttl, key :: jwt.verify(jwt.sign(p, k, ttl), key) ==> key == k
  }

  // ---------------------------------------------------------------
  // decode_token
  // ---------------------------------------------------------------

  const NoAuthorization := "No authorization"
  const InvalidBearer := "Your Bearer token is invalid"

  /** `Token.decode_token(header, key)`: the `msg` of the thrown
      `{ error: { msg } }` on failure, the complete decoding of the
      token part on success. */
  function DecodeToken(header: Option<string>, key: string, jwt: JwtLib): (r: Result<Option<Decoded>, string>)
    ensures header.None? ==> r == Failure(NoAuthorization)
    ensures header.Some? && r.Failure? ==> r.error == InvalidBearer
    ensures r.Ok? ==> exists t :: ' ' !in t && header == Some("Bearer " + t)
                                   && jwt.verify(t, key) && r.value == jwt.decode(t)
  {
    match header
    case None => Failure(NoAuthorization)
    case Some(h) =>
      var parts := Split(h);
      if |parts| != 2 || parts[0] != "Bearer" then Failure(InvalidBearer)
      else if jwt.verify(parts[1], key) then
        JoinSplit(h);
        assert h == "Bearer " + parts[1];
        Ok(jwt.decode(parts[1]))
      else Failure(InvalidBearer)
  }

  /** Given a space-free token, `decode_token` hands exactly that token
      to `verify` and, if it verifies, returns the decoding of that
      token alone, not of the whole header. */
  lemma DecodeBearer(t: string, key: string, jwt: JwtLib)
    requires ' ' !in t
    ensures DecodeToken(Some("Bearer " + t), key, jwt)
         == if jwt.verify(t, key) then Ok(jwt.decode(t)) else Failure(InvalidBearer)
  {
    BearerSplit(t);
  }

  /** `decode_token` succeeds exactly on `"Bearer "` followed by a
      space-free token that verifies under the caller's key. */
  lemma DecodeTokenAccepts(header: Option<string>, key: string, jwt: JwtLib)
    ensures DecodeToken(header, key, jwt).Ok?
        <==> exists t :: ' ' !in t && header == Some("Bearer " + t) && jwt.verify(t, key)
  {
    if t :| ' ' !in t && header == Some("Bearer " + t) && jwt.verify(t, key) {
      DecodeBearer(t, key, jwt);
    }
  }

  /** Space-free pieces other than `"Bearer"` and one token, joined by
      single spaces, make a header that `decode_token` rejects. */
  lemma RejectsPieces(parts: seq<string>, key: string, jwt: JwtLib)
    requires |parts| >= 1
    requires forall i :: 0 <= i < |parts| ==> ' ' !in parts[i]
    requires |parts| != 2 || parts[0] != "Bearer"
    ensures DecodeToken(Some(Join(parts)), key, jwt) == Failure(InvalidBearer)
  {
    SplitJoin(parts);
  }

  /** Too many parts, a doubled space, another scheme, another case. */
  lemma MalformedHeaders(key: string, jwt: JwtLib)
    ensures DecodeToken(Some("Bearer a b"), key, jwt) == Failure(InvalidBearer)
    ensures DecodeToken(Some("Bearer  a"), key, jwt) == Failure(InvalidBearer)
    ensures DecodeToken(Some("Token abc"), key, jwt) == Failure(InvalidBearer)
    ensures DecodeToken(Some("bearer abc"), key, jwt) == Failure(InvalidBearer)
  {
    assert Join(["Bearer", "a", "b"]) == "Bearer a b" by {
      assert Join(["a", "b"]) == "a b";
    }
    RejectsPieces(["Bearer", "a", "b"], key, jwt);
    assert Join(["Bearer", "", "a"]) == "Bearer  a" by {
      assert Join(["", "a"]) == " a";
    }
    RejectsPieces(["Bearer", "", "a"], key, jwt);
    assert Join(["Token", "abc"]) == "Token abc";
    RejectsPieces(["Token", "abc"], key, jwt);
    assert Join(["bearer", "abc"]) == "bearer abc";
    RejectsPieces(["bearer", "abc"], key, jwt);
  }

  /** `"Bearer "` with nothing after it passes the parse: the empty
      string goes to `verify`. */
  lemma EmptyTokenReachesVerify(key: string, jwt: JwtLib)
    ensures DecodeToken(Some("Bearer "), key, jwt)
         == if jwt.verify("", key) then Ok(jwt.decode("")) else Failure(InvalidBearer)
  {
    DecodeBearer("", key, jwt);
  }

  // ---------------------------------------------------------------
  // The two issuers
  // ---------------------------------------------------------------

  /** What distinguishes the two generators: claim name, whether the id
      is stringified, the environment variable holding the secret and
      the `expiresIn` option. */
  datatype Issuer = Issuer(claim: string, stringified: bool, secretName: string, expiresIn: string)

  const AccessIssuer := Issuer("_id", true, "ACCESS_TOKEN_SECRET", "18000s")
  const RefreshIssuer := Issuer("id", false, "REFRESH_TOKEN_SECRET", "5 days")

  /** `process.env`. */
  type Env = map<string, string>

  /** jsonwebtoken refuses an undefined or empty secret. */
  predicate HasSecret(env: Env, name: string) {
    name in env && env[name] != ""
  }

  const MissingSecret := "secretOrPrivateKey must have a value"

  /** One `jsonwebtoken.sign` call for `user` as `issuer` prescribes. */
  function Issue(issuer: Issuer, env: Env, user: User, jwt: JwtLib): (r: Result<string, string>)
    ensures r.Ok? <==> HasSecret(env, issuer.secretName)
    ensures r.Failure? ==> r.error == MissingSecret
    ensures r.Ok? ==> r.value == jwt.sign(Payload(issuer.claim, user.id, issuer.stringified),
                                           env[issuer.secretName], issuer.expiresIn)
  {
    if HasSecret(env, issuer.secretName) then
      Ok(jwt.sign(Payload(issuer.claim, user.id, issuer.stringified), env[issuer.secretName], issuer.expiresIn))
    else Failure(MissingSecret)
  }

  /** `Token.generate_access_token(user)`: the stringified id under `_id`,
      signed with the access secret, valid for 18000 seconds. */
  function GenerateAccessToken(env: Env, user: User, jwt: JwtLib): (r: Result<string, string>)
    ensures r.Ok? <==> HasSecret(env, "ACCESS_TOKEN_SECRET")
    ensures r.Failure? ==> r.error == MissingSecret
    ensures r.Ok? ==> r.value == jwt.sign(Payload("_id", user.id, true),
                                           env["ACCESS_TOKEN_SECRET"], "18000s")
  {
    Issue(AccessIssuer, env, user, jwt)
  }

  /** `Token.generate_refresh_token(user)`: the id object under `id`,
      signed with the refresh secret, valid for five days. */
  function GenerateRefreshToken(env: Env, user: User, jwt: JwtLib): (r: Result<string, string>)
    ensures r.Ok? <==> HasSecret(env, "REFRESH_TOKEN_SECRET")
    ensures r.Failure? ==> r.error == MissingSecret
    ensures r.Ok? ==> r.value == jwt.sign(Payload("id", user.id, false),
                                           env["REFRESH_TOKEN_SECRET"], "5 days")
  {
    Issue(RefreshIssuer, env, user, jwt)
  }

  /** The issuers differ in claim, its form, secret and lifetime. */
  lemma IssuersDiffer()
    ensures AccessIssuer.claim == "_id" && RefreshIssuer.claim == "id"
    ensures AccessIssuer.stringified && !RefreshIssuer.stringified
    ensures AccessIssuer.secretName != RefreshIssuer.secretName
    ensures AccessIssuer.expiresIn == "18000s" && RefreshIssuer.expiresIn == "5 days"
  {
  }

  /** An access token presented as `Bearer <token>` and decoded with the
      access secret yields the user's id under `_id`. */
  lemma AccessTokenRoundTrip(env: Env, user: User, jwt: JwtLib)
    requires Faithful(jwt) && HasSecret(env, AccessIssuer.secretName)
    ensures GenerateAccessToken(env, user, jwt).Ok?
    ensures var r := DecodeToken(Some("Bearer " + GenerateAccessToken(env, user, jwt).value),
                                 env[AccessIssuer.secretName], jwt);
            r.Ok? && r.value.Some? && r.value.value.payload == Payload("_id", user.id, true)
  {
    var p := Payload("_id", user.id, true);
    var t := jwt.sign(p, env["ACCESS_TOKEN_SECRET"], "18000s");
    assert ' ' !in t && jwt.verify(t, env["ACCESS_TOKEN_SECRET"]);
    DecodeBearer(t, env["ACCESS_TOKEN_SECRET"], jwt);
  }

  /** With distinct secrets, a refresh token is refused by
      `decode_token` under the access secret. */
  lemma RefreshTokenRejectedAsAccess(env: Env, user: User, jwt: JwtLib)
    requires Faithful(jwt) && KeyBound(jwt)
    requires HasSecret(env, AccessIssuer.secretName) && HasSecret(env, RefreshIssuer.secretName)
    requires env[AccessIssuer.secretName] != env[RefreshIssuer.secretName]
    ensures GenerateRefreshToken(env, user, jwt).Ok?
    ensures DecodeToken(Some("Bearer " + GenerateRefreshToken(env, user, jwt).value),
                        env[AccessIssuer.secretName], jwt) == Failure(InvalidBearer)
  {
    var p := Payload("id", user.id, false);
    var t := jwt.sign(p, env["REFRESH_TOKEN_SECRET"], "5 days");
    assert ' ' !in t;
    assert !jwt.verify(t, env["ACCESS_TOKEN_SECRET"]);
    DecodeBearer(t, env["ACCESS_TOKEN_SECRET"], jwt);
  }

  /** With distinct secrets, an access token is refused by
      `decode_token` under the refresh secret. */
  lemma AccessTokenRejectedAsRefresh(env: Env, user: User, jwt: JwtLib)
    requires Faithful(jwt) && KeyBound(jwt)
    requires HasSecret(env, AccessIssuer.secretName) && HasSecret(env, RefreshIssuer.secretName)
    requires env[AccessIssuer.secretName] != env[RefreshIssuer.secretName]
    ensures GenerateAccessToken(env, user, jwt).Ok?
    ensures DecodeToken(Some("Bearer " + GenerateAccessToken(env, user, jwt).value),
                        env[RefreshIssuer.secretName], jwt) == Failure(InvalidBearer)
  {
    var p := Payload("_id", user.id, true);
    var t := jwt.sign(p, env["ACCESS_TOKEN_SECRET"], "18000s");
    assert ' ' !in t;
    assert !jwt.verify(t, env["REFRESH_TOKEN_SECRET"]);
    DecodeBearer(t, env["REFRESH_TOKEN_SECRET"], jwt);
  }
}
