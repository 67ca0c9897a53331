/**
 * `AuthService`: the session kept in the browser's local storage under the
 * key "currentUser". A login stores the user's record when the server's
 * response carries a truthy token; a logout removes it; the user is logged in
 * while a stored record has a truthy token. The HTTP round trip is outside
 * the model: `Login` receives the response body, already parsed.
 */
module Session {
  import opened Wrappers
  import opened Base64
  import opened Base64Reference
  import opened Jwt

  /** `Constants.CURRENT_USER` */
  const CurrentUser: string := "currentUser"

  /** The object stored under `CurrentUser`: `{username, token, exp}`. */
  datatype UserRecord = UserRecord(username: string, token: string, exp: Json)

  /** Local storage, holding the stored records by key. */
  type Storage = map<string, UserRecord>

  /** Why a login's response handler throws. */
  datatype LoginError =
    | TokenNotString          // a truthy token that is not a string has no `split`
    | TokenRejected(JwtError) // `getTokenExpiration` threw

  /** JavaScript truthiness of a JSON value. */
  predicate JsonTruthy(v: Json) {
    match v
    case JNull => false
    case JBool(b) => b
    case JNumber(n) => n != 0
    case JString(s) => s != ""
    case JArray(_) => true
    case JObject(_) => true
  }

  /** The token the handler goes on with: the body's `token` member when it is truthy, else `None`. */
  function LoginToken(body: Json): Option<Json> {
    match body
    case JObject(members) =>
      if "token" in members && JsonTruthy(members["token"]) then Some(members["token"]) else None
    case _ => None
  }

  /**
   * JavaScript property access `v.key` on a JSON value other than `null`:
   * an object's own member, and `undefined` (`None`) otherwise, since neither
   * the primitives nor arrays have a `token` property.
   */
  function Member(v: Json, key: string): Option<Json>
    requires !v.JNull?
  {
    if v.JObject? && key in v.members then Some(v.members[key]) else None
  }

  /** JavaScript truthiness of a value that may be `undefined`. */
  predicate MaybeTruthy(v: Option<Json>) {
    v.Some? && JsonTruthy(v.value)
  }

  /** `body && body.token`: the body itself when falsy (so `null.token` is never read), else its `token` property. */
  function BodyAndToken(body: Json): Option<Json> {
    if JsonTruthy(body) then Member(body, "token") else Some(body)
  }

  /**
   * The handler goes on with a token exactly when `body && body.token` is
   * truthy, and that token is the value of the expression.
   */
  lemma LoginTokenIsConjunction(body: Json)
    ensures LoginToken(body).Some? <==> MaybeTruthy(BodyAndToken(body))
    ensures LoginToken(body).Some? ==> LoginToken(body) == BodyAndToken(body)
  {
  }

  /** The storage after the login response handler, and what it returns or throws. */
  function LoginOutcome(storage: Storage, username: string, body: Json, parse: string -> Option<Json>): (Storage, Result<bool, LoginError>) {
    match LoginToken(body)
    case None => (storage, Success(false))
    case Some(JString(token)) =>
      (match GetTokenExpiration(token, parse)
       case Failure(e) => (storage, Failure(TokenRejected(e)))
       case Success(exp) => (storage[CurrentUser := UserRecord(username, token, exp)], Success(true)))
    case Some(_) => (storage, Failure(TokenNotString))
  }

  /** `loggedIn()`: a stored record with a truthy token. */
  predicate IsLoggedIn(storage: Storage) {
    CurrentUser in storage && storage[CurrentUser].token != ""
  }

  /** `AuthService`, over the local storage it reads and writes. */
  class AuthService {
    var storage: Storage

    constructor(storage: Storage)
      ensures this.storage == storage
    {
      this.storage := storage;
    }

    /** The response handler of `login`: stores `{username, token, exp}` and returns true when a token came back. */
    method Login(username: string, body: Json, parse: string -> Option<Json>) returns (r: Result<bool, LoginError>)
      modifies this
      ensures (storage, r) == LoginOutcome(old(storage), username, body, parse)
    {
      var token := LoginToken(body);
      if token.None? {
        return Success(false);
      }
      if !token.value.JString? {
        return Failure(TokenNotString);
      }
      var exp := GetTokenExpiration(token.value.s, parse);
      if exp.Failure? {
        return Failure(TokenRejected(exp.error));
      }
      storage := storage[CurrentUser := UserRecord(username, token.value.s, exp.value)];
      r := Success(true);
    }

    /** `logout()`: removes the stored record. */
    method Logout()
      modifies this
      ensures storage == old(storage) - {CurrentUser}
    {
      storage := storage - {CurrentUser};
    }

    /** `loggedIn()` */
    function LoggedIn(): bool
      reads this
    {
      IsLoggedIn(storage)
    }
  }

  /**
   * A login succeeds exactly when the response carries a non-empty string
   * token whose expiration can be read; the record is then stored and the user
   * is logged in, and nothing else in storage changes.
   */
  lemma LoginSucceeds(storage: Storage, username: string, body: Json, parse: string -> Option<Json>)
    ensures LoginOutcome(storage, username, body, parse).1 == Success(true) <==>
      body.JObject? && "token" in body.members && body.members["token"].JString? && body.members["token"].s != "" &&
      GetTokenExpiration(body.members["token"].s, parse).Success?
    ensures LoginOutcome(storage, username, body, parse).1 == Success(true) ==>
      var token := body.members["token"].s;
      LoginOutcome(storage, username, body, parse).0 ==
        storage[CurrentUser := UserRecord(username, token, GetTokenExpiration(token, parse).value)] &&
      IsLoggedIn(LoginOutcome(storage, username, body, parse).0)
  {
  }

  /** Without a truthy token the login returns false; a login that does not return true leaves storage as it was. */
  lemma LoginWithoutTokenKeepsStorage(storage: Storage, username: string, body: Json, parse: string -> Option<Json>)
    ensures LoginOutcome(storage, username, body, parse).1 == Success(false) <==>
      !(body.JObject? && "token" in body.members && JsonTruthy(body.members["token"]))
    ensures LoginOutcome(storage, username, body, parse).1 != Success(true) ==>
      LoginOutcome(storage, username, body, parse).0 == storage
  {
  }

  /** A truthy token that is not a string makes the handler throw. */
  lemma NonStringTokenThrows(storage: Storage, username: string, members: map<string, Json>, parse: string -> Option<Json>)
    requires "token" in members && JsonTruthy(members["token"]) && !members["token"].JString?
    ensures LoginOutcome(storage, username, JObject(members), parse).1 == Failure(TokenNotString)
  {
  }

  /** A response `{token}` with a readable expiration stores the record beside that expiration. */
  lemma LoginWithToken(storage: Storage, username: string, token: string, parse: string -> Option<Json>)
    requires token != "" && GetTokenExpiration(token, parse).Success?
    ensures LoginOutcome(storage, username, JObject(map["token" := JString(token)]), parse) ==
      (storage[CurrentUser := UserRecord(username, token, GetTokenExpiration(token, parse).value)], Success(true))
  {
  }

  /** A response `{token}` whose expiration cannot be read makes the handler throw that error, storing nothing. */
  lemma LoginRejectedToken(storage: Storage, username: string, token: string, parse: string -> Option<Json>)
    requires token != "" && GetTokenExpiration(token, parse).Failure?
    ensures LoginOutcome(storage, username, JObject(map["token" := JString(token)]), parse) ==
      (storage, Failure(TokenRejected(GetTokenExpiration(token, parse).error)))
  {
  }

  /**
   * A response carrying a token made of a header, the Base64 of a non-empty
   * payload that parses to an object, and a signature logs the user in with
   * the payload's `exp` claim stored beside the token (-1 without one). A
   * payload with its own `hasOwnProperty` member makes the handler throw
   * (`LoginWithShadowingToken`).
   */
  lemma LoginWithIssuedToken(storage: Storage, username: string, h: string, p: seq<Byte>, g: string,
                             parse: string -> Option<Json>, claims: map<string, Json>)
    requires Dot !in h && Dot !in g && |p| > 0
    requires parse(Latin1(p)) == Some(JObject(claims)) && "hasOwnProperty" !in claims
    ensures var token := h + [Dot] + Encode(p) + [Dot] + g;
      LoginOutcome(storage, username, JObject(map["token" := JString(token)]), parse) ==
        (storage[CurrentUser := UserRecord(username, token, if "exp" in claims then claims["exp"] else JNumber(-1))], Success(true))
  {
    var token := h + [Dot] + Encode(p) + [Dot] + g;
    ExpirationRoundTrip(h, p, g, parse, claims);
    LoginWithToken(storage, username, token, parse);
  }

  /** A token whose payload object has its own `hasOwnProperty` member makes the handler throw, storing nothing. */
  lemma LoginWithShadowingToken(storage: Storage, username: string, h: string, p: seq<Byte>, g: string,
                                parse: string -> Option<Json>, claims: map<string, Json>)
    requires Dot !in h && Dot !in g && |p| > 0
    requires parse(Latin1(p)) == Some(JObject(claims)) && "hasOwnProperty" in claims
    ensures var token := h + [Dot] + Encode(p) + [Dot] + g;
      LoginOutcome(storage, username, JObject(map["token" := JString(token)]), parse) ==
        (storage, Failure(TokenRejected(ShadowedHasOwn)))
  {
    var token := h + [Dot] + Encode(p) + [Dot] + g;
    ExpirationRoundTrip(h, p, g, parse, claims);
    LoginRejectedToken(storage, username, token, parse);
  }

  /** After a logout the user is not logged in, every other key is untouched, and a second logout changes nothing. */
  lemma LogoutLogsOut(storage: Storage)
    ensures !IsLoggedIn(storage - {CurrentUser})
    ensures forall k :: k in storage && k != CurrentUser ==> k in storage - {CurrentUser} && (storage - {CurrentUser})[k] == storage[k]
    ensures (storage - {CurrentUser}) - {CurrentUser} == storage - {CurrentUser}
  {
  }

  /** A successful login followed by a logout leaves the other keys as before the login and the user logged out. */
  lemma LoginThenLogout(storage: Storage, username: string, body: Json, parse: string -> Option<Json>)
    requires LoginOutcome(storage, username, body, parse).1 == Success(true)
    ensures LoginOutcome(storage, username, body, parse).0 - {CurrentUser} == storage - {CurrentUser}
    ensures !IsLoggedIn(LoginOutcome(storage, username, body, parse).0 - {CurrentUser})
  {
    LoginSucceeds(storage, username, body, parse);
  }
}
