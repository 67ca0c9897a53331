/**
 * `JwtHelper`'s token functions: the three-part split of a compact JWT, the
 * decoding of its payload segment, the `exp` claim lookup and the expiry
 * predicate with a clock-skew offset. `JSON.parse` is a parameter `parse`
 * (`None` is its `SyntaxError`) and the wall clock is a parameter `nowMs`.
 */
module Jwt {
  import opened Wrappers
  import opened Base64
  import opened Base64Reference

  /** A parsed JSON value (integral numbers only). */
  datatype Json =
    | JNull
    | JBool(b: bool)
    | JNumber(n: int)
    | JString(s: string)
    | JArray(items: seq<Json>)
    | JObject(members: map<string, Json>)

  /** The exceptions `decodeToken` and `getTokenExpiration` throw. */
  datatype JwtError =
    | NotThreeParts       // "JWT must have 3 parts"
    | CannotDecodeBase64  // thrown by `getByte64`/`base64Decode`
    | CannotDecodeToken   // "Cannot decode the token": the payload decoded to ""
    | InvalidJson         // `JSON.parse` threw
    | NullClaims          // `hasOwnProperty` called on a `null` payload
    | ShadowedHasOwn      // the payload's own `hasOwnProperty` member is not a function

  const Dot: char := '.'

  /** Number of occurrences of `c` in `s`. */
  function Count(s: string, c: char): nat {
    if |s| == 0 then 0 else (if s[0] == c then 1 else 0) + Count(s[1..], c)
  }

  /** `s.split(sep)` for a one-character separator. */
  function Split(s: string, sep: char): (parts: seq<string>)
    ensures |parts| >= 1
  {
    if |s| == 0 then [""]
    else
      var rest := Split(s[1..], sep);
      if s[0] == sep then [""] + rest
      else [[s[0]] + rest[0]] + rest[1..]
  }

  /** `parts.join(sep)`. */
  function Join(parts: seq<string>, sep: char): string
    requires |parts| >= 1
  {
    if |parts| == 1 then parts[0] else parts[0] + [sep] + Join(parts[1..], sep)
  }

  /** `split` yields one more part than there are separators. */
  lemma {:induction false} SplitCount(s: string, sep: char)
    ensures |Split(s, sep)| == Count(s, sep) + 1
  {
    if |s| > 0 {
      SplitCount(s[1..], sep);
    }
  }

  /** No part contains the separator. */
  lemma {:induction false} SplitPartsFree(s: string, sep: char)
    ensures forall j :: 0 <= j < |Split(s, sep)| ==> sep !in Split(s, sep)[j]
  {
    if |s| > 0 {
      SplitPartsFree(s[1..], sep);
      var rest := Split(s[1..], sep);
      if s[0] != sep {
        assert sep !in rest[0];
        assert forall j :: 1 <= j < |Split(s, sep)| ==> Split(s, sep)[j] == rest[j];
      } else {
        assert forall j :: 1 <= j < |Split(s, sep)| ==> Split(s, sep)[j] == rest[j - 1];
      }
    }
  }

  /** Joining the parts with the separator gives the input back. */
  lemma {:induction false} SplitJoin(s: string, sep: char)
    ensures Join(Split(s, sep), sep) == s
  {
    if |s| > 0 {
      SplitJoin(s[1..], sep);
      var rest := Split(s[1..], sep);
      if s[0] == sep {
        assert Join([""] + rest, sep) == "" + [sep] + Join(rest, sep);
        assert s == [s[0]] + s[1..];
      } else {
        var parts := [[s[0]] + rest[0]] + rest[1..];
        if |rest| == 1 {
          assert Join(parts, sep) == [s[0]] + rest[0];
        } else {
          assert parts[1..] == rest[1..];
          assert Join(parts, sep) == [s[0]] + (rest[0] + [sep] + Join(rest[1..], sep));
        }
        assert s == [s[0]] + s[1..];
      }
    }
  }

  /** A leading part without the separator splits off as the first part. */
  lemma {:induction false} SplitPrefix(a: string, sep: char, rest: string)
    requires sep !in a
    ensures Split(a + [sep] + rest, sep) == [a] + Split(rest, sep)
  {
    if |a| > 0 {
      SplitPrefix(a[1..], sep, rest);
      assert (a + [sep] + rest)[1..] == a[1..] + [sep] + rest;
      assert [a[0]] + a[1..] == a;
    } else {
      assert a + [sep] + rest == [sep] + rest;
      assert ([sep] + rest)[1..] == rest;
    }
  }

  /** A string without the separator is a single part. */
  lemma {:induction false} SplitWhole(a: string, sep: char)
    requires sep !in a
    ensures Split(a, sep) == [a]
  {
    if |a| > 0 {
      SplitWhole(a[1..], sep);
      assert [a[0]] + a[1..] == a;
    }
  }

  /** `decodeToken`: three dot-separated parts, a decodable non-empty payload segment, valid JSON. */
  function DecodeToken(token: string, parse: string -> Option<Json>): Result<Json, JwtError> {
    var parts := Split(token, Dot);
    if |parts| != 3 then Failure(NotThreeParts)
    else
      match Decode(parts[1])
      case None => Failure(CannotDecodeBase64)
      case Some(decoded) =>
        if decoded == "" then Failure(CannotDecodeToken)
        else
          match parse(decoded)
          case None => Failure(InvalidJson)
          case Some(claims) => Success(claims)
  }

  /**
   * `getTokenExpiration`: the `exp` claim, or the sentinel -1 when the payload
   * has no own `exp`. A parsed object whose own members include
   * `hasOwnProperty` shadows the method with a JSON value, so the call throws.
   */
  function GetTokenExpiration(token: string, parse: string -> Option<Json>): Result<Json, JwtError> {
    match DecodeToken(token, parse)
    case Failure(e) => Failure(e)
    case Success(claims) =>
      if claims.JNull? then Failure(NullClaims)
      else if claims.JObject? && "hasOwnProperty" in claims.members then Failure(ShadowedHasOwn)
      else if claims.JObject? && "exp" in claims.members then Success(claims.members["exp"])
      else Success(JNumber(-1))
  }

  /** The largest magnitude of a time value a `Date` holds (ECMAScript TimeClip), in ms. */
  const MaxTimeMs: int := 8_640_000_000_000_000

  /**
   * `isTokenExpiredWithExp(exp, offsetSeconds)` with `new Date().valueOf()`
   * given as `nowMs`. An absent or zero offset counts as 0. `setUTCSeconds`
   * on the epoch yields `exp * 1000` ms, or an invalid date (NaN) beyond the
   * `Date` range, for which the `>` comparison is false.
   */
  function IsTokenExpiredWithExp(exp: int, offsetSeconds: Option<int>, nowMs: int): bool {
    var offset := offsetSeconds.GetOr(0);
    if exp == -1 then false
    else
      var expMs := exp * 1000;
      var validDate := -MaxTimeMs <= expMs <= MaxTimeMs;
      !(validDate && expMs > nowMs + offset * 1000)
  }

  /** The count of parts decides the shape check: a token fails with `NotThreeParts` exactly when it does not hold two dots. */
  lemma DecodeTokenShape(token: string, parse: string -> Option<Json>)
    ensures DecodeToken(token, parse) == Failure(NotThreeParts) <==> Count(token, Dot) != 2
  {
    SplitCount(token, Dot);
  }

  /** A payload segment that is not padded to a multiple of 4 (as in unpadded base64url) is rejected. */
  lemma UnpaddedPayloadRejected(token: string, parse: string -> Option<Json>)
    requires |Split(token, Dot)| == 3 && |Split(token, Dot)[1]| % 4 != 0
    ensures DecodeToken(token, parse) == Failure(CannotDecodeBase64)
  {
  }

  /** An empty payload segment decodes to "" and is rejected as undecodable. */
  lemma EmptyPayloadRejected(header: string, signature: string, parse: string -> Option<Json>)
    requires Dot !in header && Dot !in signature
    ensures DecodeToken(header + [Dot] + [Dot] + signature, parse) == Failure(CannotDecodeToken)
  {
    SplitPrefix(header, Dot, [Dot] + signature);
    assert header + [Dot] + [Dot] + signature == header + [Dot] + ([Dot] + signature);
    SplitPrefix([], Dot, signature);
    assert [] + [Dot] + signature == [Dot] + signature;
    SplitWhole(signature, Dot);
  }

  /** Three dot-free segments joined by dots split back into those segments. */
  lemma SplitThree(h: string, m: string, g: string)
    requires Dot !in h && Dot !in m && Dot !in g
    ensures Split(h + [Dot] + m + [Dot] + g, Dot) == [h, m, g]
  {
    assert h + [Dot] + m + [Dot] + g == h + [Dot] + (m + [Dot] + g);
    SplitPrefix(h, Dot, m + [Dot] + g);
    SplitPrefix(m, Dot, g);
    SplitWhole(g, Dot);
  }

  /** The encoding never holds a dot. */
  lemma EncodeDotFree(p: seq<Byte>)
    ensures Dot !in Encode(p)
  {
    EncodeChars(p);
  }

  /**
   * A token built from a header, the padded Base64 of a non-empty payload and
   * a signature decodes to whatever `JSON.parse` makes of the payload.
   */
  lemma DecodeTokenRoundTrip(h: string, p: seq<Byte>, g: string, parse: string -> Option<Json>)
    requires Dot !in h && Dot !in g && |p| > 0
    ensures DecodeToken(h + [Dot] + Encode(p) + [Dot] + g, parse) ==
      (match parse(Latin1(p)) case None => Failure(InvalidJson) case Some(claims) => Success(claims))
  {
    EncodeDotFree(p);
    SplitThree(h, Encode(p), g);
    RoundTrip(p);
  }

  /**
   * A payload that parses to an object yields its `exp` member, or -1 without
   * one; an object with its own `hasOwnProperty` member makes the lookup throw.
   */
  lemma ExpirationOfClaims(token: string, parse: string -> Option<Json>, claims: map<string, Json>)
    requires DecodeToken(token, parse) == Success(JObject(claims))
    ensures "hasOwnProperty" in claims ==> GetTokenExpiration(token, parse) == Failure(ShadowedHasOwn)
    ensures "hasOwnProperty" !in claims ==>
      GetTokenExpiration(token, parse) == Success(if "exp" in claims then claims["exp"] else JNumber(-1))
  {
  }

  /**
   * For such a token whose payload parses to an object, the expiration is its
   * `exp` member, or -1 without one, unless the object shadows `hasOwnProperty`.
   */
  lemma ExpirationRoundTrip(h: string, p: seq<Byte>, g: string, parse: string -> Option<Json>, claims: map<string, Json>)
    requires Dot !in h && Dot !in g && |p| > 0
    requires parse(Latin1(p)) == Some(JObject(claims))
    ensures "hasOwnProperty" in claims ==>
      GetTokenExpiration(h + [Dot] + Encode(p) + [Dot] + g, parse) == Failure(ShadowedHasOwn)
    ensures "hasOwnProperty" !in claims ==>
      GetTokenExpiration(h + [Dot] + Encode(p) + [Dot] + g, parse) ==
      Success(if "exp" in claims then claims["exp"] else JNumber(-1))
  {
    DecodeTokenRoundTrip(h, p, g, parse);
    ExpirationOfClaims(h + [Dot] + Encode(p) + [Dot] + g, parse, claims);
  }

  /** Whatever the payload, a successful expiration lookup comes from a decodable three-part token. */
  lemma ExpirationNeedsToken(token: string, parse: string -> Option<Json>)
    requires GetTokenExpiration(token, parse).Success?
    ensures Count(token, Dot) == 2 && DecodeToken(token, parse).Success?
    ensures DecodeToken(token, parse).value.JObject? && "exp" in DecodeToken(token, parse).value.members ==>
      GetTokenExpiration(token, parse).value == DecodeToken(token, parse).value.members["exp"]
  {
    SplitCount(token, Dot);
  }

  /** The sentinel -1 never expires, whatever the offset and the clock. */
  lemma SentinelNeverExpires(offsetSeconds: Option<int>, nowMs: int)
    ensures !IsTokenExpiredWithExp(-1, offsetSeconds, nowMs)
  {
  }

  /**
   * Within the `Date` range, a token expires once the clock plus the offset
   * reaches the expiry instant: `exp * 1000 <= now + offset * 1000`.
   */
  lemma ExpiredIffDeadlinePassed(exp: int, offsetSeconds: Option<int>, nowMs: int)
    requires exp != -1 && -MaxTimeMs <= exp * 1000 <= MaxTimeMs
    ensures IsTokenExpiredWithExp(exp, offsetSeconds, nowMs) <==>
      nowMs >= exp * 1000 - offsetSeconds.GetOr(0) * 1000
  {
  }

  /** An expiry beyond the `Date` range yields an invalid date, which always counts as expired. */
  lemma OutOfRangeExpired(exp: int, offsetSeconds: Option<int>, nowMs: int)
    requires exp != -1 && (exp * 1000 > MaxTimeMs || exp * 1000 < -MaxTimeMs)
    ensures IsTokenExpiredWithExp(exp, offsetSeconds, nowMs)
  {
  }

  /** An absent offset and an offset of 0 are the same. */
  lemma MissingOffsetIsZero(exp: int, nowMs: int)
    ensures IsTokenExpiredWithExp(exp, None, nowMs) == IsTokenExpiredWithExp(exp, Some(0), nowMs)
  {
  }

  /** The offset shifts the clock: an offset of `s` seconds is the clock `s * 1000` ms later. */
  lemma OffsetShiftsClock(exp: int, offset: int, nowMs: int)
    ensures IsTokenExpiredWithExp(exp, Some(offset), nowMs) == IsTokenExpiredWithExp(exp, None, nowMs + offset * 1000)
  {
  }

  /** Once expired, a token stays expired as the clock advances or the offset grows. */
  lemma ExpiryMonotone(exp: int, offset: int, offset': int, nowMs: int, nowMs': int)
    requires nowMs <= nowMs' && offset <= offset'
    requires IsTokenExpiredWithExp(exp, Some(offset), nowMs)
    ensures IsTokenExpiredWithExp(exp, Some(offset'), nowMs')
  {
  }
}
