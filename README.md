# Client-side JWT handling of an Angular prototype, in Dafny

This project models the client-side authentication core of an Angular
application. It covers three parts, from three TypeScript files.

- **`JwtHelper` and the auth configuration (`app/auth/auth-jwt.ts`).**
  - The hand-written Base64 decoder (`getByte64`, `base64Decode`) uses the standard alphabet of section 4 of RFC 4648 and requires `=` padding.
  - `decodeToken` splits a compact JWT into three parts and JSON-parses the decoded payload.
  - `getTokenExpiration` reads the `exp` claim, or returns the sentinel -1.
  - `isTokenExpiredWithExp` is the expiry predicate with a clock-skew offset.
  - `objectAssign` merges configuration objects.
  - The `AuthConfig` constructor resolves the header prefix and the token getter.
  - `AuthHttp.setGlobalHeaders` and `AuthHttp.requestWithToken` write into a request's header map.
- **`GlobalErrorHandler` (`app/error/GlobalErrorHandler.ts`).**
  - `isUnauthorized` classifies a status code.
  - `findOriginalError` unwraps an `originalError` chain.
  - `handleError` reports to the console and to the error-log service, swallowing their failures. On an unauthorized HTTP `Response` it logs out and routes to `/login`. It rethrows when configured to.
- **`AuthService` (`app/auth/auth.service.ts`).** The login response handler, `logout` and `loggedIn` all work on the local-storage slot `currentUser`.

Module layout:

| file | module | models |
|---|---|---|
| `wrappers.dfy` | `Wrappers` | `Option`, `Result` |
| `base64.dfy` | `Base64` | `ALPHA`, `getByte64`, `base64Decode` (function `Decode`; methods `Base64Decode`, `DecodeFullBlocks`) |
| `base64_props.dfy` | `Base64Properties` | what the decoder accepts and produces |
| `base64_encode.dfy` | `Base64Reference` | a padded standard Base64 encoder, which `base64Decode` inverts |
| `jwt.dfy` | `Jwt` | `split('.')`, `decodeToken`, `getTokenExpiration`, `isTokenExpiredWithExp` |
| `auth_jwt.dfy` | `AuthJwt` | `objectAssign`, `AuthConfigDefaults`, `AuthConfig`, `AuthHttp` header writes |
| `session.dfy` | `Session` | `AuthService` over a storage map |
| `error_handler.dfy` | `ErrorHandling` | `GlobalErrorHandler` with an event trace |

Modelling choices:

- **Throwing.** A function that may throw returns `None` or `Failure(error)`. `DecodeToken` and `GetTokenExpiration` name the error.
- **JSON parsing.** `JSON.parse` is a parameter `parse: string -> Option<Json>`, where `None` is a `SyntaxError`.
- **The clock.** `new Date().valueOf()` is a parameter `nowMs`.
- **Decoded strings.** They are strings of char codes 0..255, one per byte, as `String.fromCharCode` produces. No UTF-8 decoding happens.
- **Methods and functions.** The decoder loop, the `objectAssign` loops, the `setGlobalHeaders` loop and the `findOriginalError` loop are methods with loop invariants. Each is proved equal to a function, and the function's properties are proved as lemmas.
- **Classes.** `AuthService` and `GlobalErrorHandler` are classes whose methods change their own fields. `AuthHttp`'s methods change a `Request`'s headers. `AuthConfig` is set once by its constructor.
- **Observable effects.** `GlobalErrorHandler`'s console, logging and router calls are appended to a `trace` of events.

Behaviour of the code worth noting:

- Decoding uses the standard alphabet, not the URL-safe one.
- A payload segment must be padded to a multiple of 4. An unpadded base64url payload, as section 2 of RFC 7515 prescribes for compact JWTs, is therefore rejected when its length is not a multiple of 4 (`Jwt.UnpaddedPayloadRejected`) or when it holds `-` or `_` (`Base64Properties.DecodeRejectsChar`).
- There is one storage slot, and there is no token renewal.
- Global headers overwrite headers the request already has.
- A payload object with its own `hasOwnProperty` member makes `getTokenExpiration` throw, since the call then reaches that member instead of the method (`Jwt.ExpirationOfClaims`).

## Model

| member | source | states |
|---|---|---|
| Base64.SextetOf | app/auth/auth-jwt.ts:243-250 | a character has a sextet exactly when it is one of the 64 `ALPHA` characters, and that sextet's `ALPHA` character is the character itself |
| Base64.SextetOfIsIndexOf | app/auth/auth-jwt.ts:243-250 | the sextet lookup agrees with `ALPHA.indexOf(c)`: -1 (the throw) exactly when the lookup fails, else the same index |
| Base64.IndexOf | app/auth/auth-jwt.ts:246 | `indexOf` returns -1 or an index holding the searched character |
| Base64.IndexOfFirst | app/auth/auth-jwt.ts:246 | no position before the index `indexOf` returns holds the character (and none at all when it returns -1) |
| Base64.IndexOfAlphabet | app/auth/auth-jwt.ts:243-248 | `ALPHA.indexOf(c)` is -1 exactly for characters outside the alphabet, else the index of `c` |
| Base64.AlphabetByRanges | app/auth/auth-jwt.ts:243 | `ALPHA` has 64 characters: A-Z at 0-25, a-z at 26-51, 0-9 at 52-61, `+` at 62, `/` at 63 |
| Base64.SextetCharInjective | app/auth/auth-jwt.ts:243 | distinct sextets have distinct `ALPHA` characters |
| Base64.AlphabetCharHasSextet | app/auth/auth-jwt.ts:243 | every alphabet character is the `ALPHA` character of some sextet |
| Base64.Group | app/auth/auth-jwt.ts:278-279 | the 24-bit group `a << 18 \| b << 12 \| c << 6 \| d` is in 0 .. 2^24 - 1 |
| Base64.GroupHigh | app/auth/auth-jwt.ts:278-280 | `b10 >> 16` is `a` followed by the top two bits of `b` |
| Base64.GroupMid | app/auth/auth-jwt.ts:278-280 | `(b10 >> 8) & 0xff` is the low four bits of `b` followed by the top four of `c` |
| Base64.GroupLow | app/auth/auth-jwt.ts:278-280 | `b10 & 0xff` is the low two bits of `c` followed by `d` |
| Base64.GroupBytes | app/auth/auth-jwt.ts:278-280 | `b10 >> 16`, `(b10 >> 8) & 0xff` and `b10 & 0xff` are the high, middle and low bytes built from the sextets' bits |
| Base64.LoopBlocks | app/auth/auth-jwt.ts:266-277 | the loop covers every block, or every block but the last when the input ends in `=` |
| Base64.FullBlocksFailurePersists | app/auth/auth-jwt.ts:277-281 | once a block fails to decode, every longer run of blocks fails too (the loop throws and never resumes) |
| Base64.FullBlocksStep | app/auth/auth-jwt.ts:277-281 | each loop step appends the decoded block's characters to the output so far |
| Base64.FullBlocksFailAt | app/auth/auth-jwt.ts:277-281 | a block that fails to decode makes the whole loop fail |
| Base64.DecodeFullBlocks | app/auth/auth-jwt.ts:276-281 | the `for` loop decodes the blocks into the specified characters, or throws at the first bad one |
| Base64.Base64Decode | app/auth/auth-jwt.ts:253-294 | the decoder, with its empty, length, padding and switch branches, returns what `Decode` specifies, whose properties follow |
| Base64Properties.FullBlockAccepts | app/auth/auth-jwt.ts:278-280 | a block decodes if and only if its four characters are in the alphabet, giving three byte characters |
| Base64Properties.FullBlocksAccepts | app/auth/auth-jwt.ts:277-281 | the first k blocks decode if and only if their 4k characters are all in the alphabet |
| Base64Properties.FullBlocksBytes | app/auth/auth-jwt.ts:277-281 | every decoded character code is below 256 |
| Base64Properties.FullBlocksShape | app/auth/auth-jwt.ts:277-281 | the first k blocks decode exactly when their 4k characters are all in the alphabet, giving 3k characters, each below 256 |
| Base64Properties.FullBlocksLength | app/auth/auth-jwt.ts:277-281 | k decoded blocks give 3k characters |
| Base64Properties.FullBlocksLast | app/auth/auth-jwt.ts:277-281 | the last block of a decoded run is its last three characters |
| Base64Properties.FullBlocksPrefix | app/auth/auth-jwt.ts:277-281 | appending a block leaves the earlier blocks' characters in place |
| Base64Properties.FullBlocksAt | app/auth/auth-jwt.ts:277-281 | block m of a decoded run sits at characters 3m .. 3m+3 of the output |
| Base64Properties.DecodeEmpty | app/auth/auth-jwt.ts:257-260 | `base64Decode("")` is `""` |
| Base64Properties.DecodeRejectsLength | app/auth/auth-jwt.ts:262-264 | a non-empty input whose length is not a multiple of 4 is rejected |
| Base64Properties.DecodeAccepts | app/auth/auth-jwt.ts:253-294 | the input decodes if and only if it is empty, or its length is a multiple of 4 and every character before the trailing pads is in the alphabet |
| Base64Properties.PadBlockAccepts | app/auth/auth-jwt.ts:283-292 | the padded last block decodes exactly when its characters before the pads are in the alphabet |
| Base64Properties.DecodeRejectsChar | app/auth/auth-jwt.ts:245-249 | a non-alphabet character before the trailing pads (`=` in the middle, `-`, `_`) makes the decode throw |
| Base64Properties.DecodeLength | app/auth/auth-jwt.ts:266-292 | the output has `3n/4`, `3n/4 - 1` or `3n/4 - 2` characters for 0, 1 or 2 pads, each a byte |
| Base64Properties.FullBlockBytes | app/auth/auth-jwt.ts:278-280 | a full block's three characters are the bytes of `a·2^18 + b·2^12 + c·2^6 + d`, high byte first |
| Base64Properties.DecodeBlock | app/auth/auth-jwt.ts:276-293 | each full block of an accepted input appears, decoded, at its place in the output |
| Base64Reference.Latin1 | app/auth/auth-jwt.ts:280 | bytes become one character each |
| Base64Reference.Latin1Append | app/auth/auth-jwt.ts:280 | character conversion distributes over concatenation, which `x.join('')` relies on |
| Base64Reference.EncodeTail | app/auth/auth-jwt.ts:283-292 | a padded last block holds four characters |
| Base64Reference.EncodeShape | app/auth/auth-jwt.ts:266-292 | the encoding of n whole triples plus a tail has 4n characters, plus a padded block when a tail remains |
| Base64Reference.EncodeCovers | app/auth/auth-jwt.ts:277 | k whole triples give at least 4k characters |
| Base64Reference.EncodeAt | app/auth/auth-jwt.ts:277-281 | triple m is encoded at characters 4m .. 4m+4 |
| Base64Reference.EncodeChars | app/auth/auth-jwt.ts:242-243 | the encoding uses only `ALPHA` characters and `=` |
| Base64Reference.SextetRoundTrip | app/auth/auth-jwt.ts:245-250 | the lookup inverts the alphabet |
| Base64Reference.BytesRoundTrip | app/auth/auth-jwt.ts:278-280 | splitting three bytes into sextets and regrouping them gives the three bytes back |
| Base64Reference.BlockRoundTrip | app/auth/auth-jwt.ts:278-280 | a full block encoding bytes x y z decodes to them |
| Base64Reference.EncodeEncodesBlocks | app/auth/auth-jwt.ts:277-281 | the encoding holds every whole triple at its block |
| Base64Reference.EncodedBlocksDecode | app/auth/auth-jwt.ts:277-281 | blocks encoding triples decode to those triples |
| Base64Reference.PrefixTriple | app/auth/auth-jwt.ts:277-281 | a triple prefix grows by one triple at a time |
| Base64Reference.FullBlocksRoundTrip | app/auth/auth-jwt.ts:276-281 | the loop over k encoded triples gives those bytes back |
| Base64Reference.TailRoundTrip | app/auth/auth-jwt.ts:266-292 | a padded last block counts 3 - t pads and decodes to its t bytes |
| Base64Reference.DecodeParts | app/auth/auth-jwt.ts:276-293 | the output is the loop's characters followed by the switch's |
| Base64Reference.DecodeEncoded | app/auth/auth-jwt.ts:253-294 | any string shaped like an encoding of b decodes to b |
| Base64Reference.RoundTrip | app/auth/auth-jwt.ts:253-294 | `base64Decode` inverts padded standard Base64 encoding on every byte sequence |
| Jwt.Split | app/auth/auth-jwt.ts:297 | `split('.')` returns at least one part |
| Jwt.SplitCount | app/auth/auth-jwt.ts:297 | `split` returns one more part than there are dots |
| Jwt.SplitPartsFree | app/auth/auth-jwt.ts:297 | no part contains a dot |
| Jwt.SplitJoin | app/auth/auth-jwt.ts:297 | joining the parts with dots gives the token back |
| Jwt.SplitPrefix | app/auth/auth-jwt.ts:297 | a dot-free first segment splits off as the first part |
| Jwt.SplitWhole | app/auth/auth-jwt.ts:297 | a dot-free string is one part |
| Jwt.SplitThree | app/auth/auth-jwt.ts:297-301 | three dot-free segments joined by dots split into exactly those three parts |
| Jwt.DecodeTokenShape | app/auth/auth-jwt.ts:297-301 | `decodeToken` throws "JWT must have 3 parts" if and only if the token does not hold exactly two dots |
| Jwt.UnpaddedPayloadRejected | app/auth/auth-jwt.ts:296-309 | a payload segment whose length is not a multiple of 4 makes `decodeToken` throw |
| Jwt.EmptyPayloadRejected | app/auth/auth-jwt.ts:303-306 | an empty payload segment decodes to "" and `decodeToken` throws "Cannot decode the token" |
| Jwt.EncodeDotFree | app/auth/auth-jwt.ts:297 | a Base64 payload never holds a dot, so it stays one part |
| Jwt.DecodeTokenRoundTrip | app/auth/auth-jwt.ts:296-309 | a token built from header, padded Base64 payload and signature decodes to what `JSON.parse` makes of the payload |
| Jwt.ExpirationOfClaims | app/auth/auth-jwt.ts:324-332 | for claims that are an object, `getTokenExpiration` is the `exp` member, or -1 without one; it throws when the object has its own `hasOwnProperty` member |
| Jwt.ExpirationRoundTrip | app/auth/auth-jwt.ts:296-332 | for an issued token whose payload is a claims object, `getTokenExpiration` is its `exp` member, or -1; it throws when the object has its own `hasOwnProperty` member |
| Jwt.ExpirationNeedsToken | app/auth/auth-jwt.ts:324-332 | an expiration is only read from a token with two dots that decodes, and is its `exp` member when present |
| Jwt.SentinelNeverExpires | app/auth/auth-jwt.ts:336-338 | `exp == -1` is never expired, whatever the offset and the clock |
| Jwt.ExpiredIffDeadlinePassed | app/auth/auth-jwt.ts:334-343 | within the `Date` range, expired if and only if `now >= exp*1000 - offset*1000`, with an absent offset counting as 0 |
| Jwt.OutOfRangeExpired | app/auth/auth-jwt.ts:339-342 | an `exp` beyond the `Date` range gives an invalid date, which always counts as expired |
| Jwt.MissingOffsetIsZero | app/auth/auth-jwt.ts:335 | an absent offset behaves as 0 |
| Jwt.OffsetShiftsClock | app/auth/auth-jwt.ts:342 | an offset of s seconds acts as a clock s·1000 ms later |
| Jwt.ExpiryMonotone | app/auth/auth-jwt.ts:334-343 | once expired, a token stays expired as the clock advances or the offset grows |
| AuthJwt.LastWith | app/auth/auth-jwt.ts:212-219 | the last source holding a key, with no later source holding it |
| AuthJwt.LaterSourceWins | app/auth/auth-jwt.ts:207-231 | after `objectAssign`, a key is present if and only if the target or a source has it; its value comes from the last source that has it, else from the target |
| AuthJwt.MoveProperty | app/auth/auth-jwt.ts:215-219 | copying one property onto the target keeps target-plus-pending unchanged |
| AuthJwt.CopyProperties | app/auth/auth-jwt.ts:213-219 | the `for ... in` loop copies every own property of a source over the target |
| AuthJwt.ObjectAssign | app/auth/auth-jwt.ts:207-231 | `objectAssign` copies the sources in order, as `AssignAll` specifies, so `LaterSourceWins` holds of its result |
| AuthJwt.MergedLookup | app/auth/auth-jwt.ts:42-64 | the merged configuration has the caller's value for each key the caller gives, else the default |
| AuthJwt.HeaderPrefixResolution | app/auth/auth-jwt.ts:62-71 | the prefix is the caller's non-empty prefix plus exactly one space, else "" when `noTokenScheme` is true, else "Bearer " |
| AuthJwt.ConfiguredOverrides | app/auth/auth-jwt.ts:42-79 | every other key holds the caller's value or the default; the token getter is the caller's when truthy, else the built-in one |
| AuthJwt.ConfiguredResolved | app/auth/auth-jwt.ts:62-80 | a typed configuration resolves to a string header name, a string prefix and a header list |
| AuthJwt.FactoryConfiguration | app/auth/auth.module.ts:10-16 | the module's factory options give header "Authorization", prefix "Bearer ", the built-in token getter, and keep `tokenName` |
| AuthJwt.AuthConfig.constructor | app/auth/auth-jwt.ts:62-80 | the constructor leaves the configuration `Configured` specifies, which is resolved |
| AuthJwt.GlobalHeadersOverwrite | app/auth/auth-jwt.ts:133-142 | after the global headers are set, each header name holds its last global value; other headers keep theirs |
| AuthJwt.AuthHttp.constructor | app/auth/auth-jwt.ts:101-102 | `AuthHttp` keeps the resolved configuration |
| AuthJwt.AuthHttp.SetGlobalHeaders | app/auth/auth-jwt.ts:133-142 | creates an empty header map when absent, then sets each header object's first key to its value, in order |
| AuthJwt.AuthHttp.RequestWithToken | app/auth/auth-jwt.ts:128-131 | sets the configured header name to prefix + token and changes no other header |
| AuthJwt.FactoryRequestHeaders | app/auth/auth-jwt.ts:108-142 | with the configuration `Configured` gives the factory options, writing the configured global headers into an empty header map and then the configured token header yields exactly the JSON content type and `Authorization: Bearer <token>` |
| AuthJwt.FactoryRequest | app/auth/auth-jwt.ts:108-131 | a request built through `AuthConfig`, `AuthHttp`, `setGlobalHeaders` and `requestWithToken` under the factory options carries exactly the JSON content type and `Authorization: Bearer <token>` |
| Session.LoginTokenIsConjunction | app/auth/auth.service.ts:20-21 | the handler goes on with a token exactly when JavaScript's `body && body.token` is truthy, and the token is that expression's value |
| Session.AuthService.Login | app/auth/auth.service.ts:18-31 | the response handler changes storage and returns exactly as `LoginOutcome` specifies |
| Session.AuthService.Logout | app/auth/auth.service.ts:34-37 | `logout` removes the `currentUser` key and nothing else |
| Session.LoginSucceeds | app/auth/auth.service.ts:20-47 | login returns true if and only if the body has a non-empty string token whose expiration is readable; the record `{username, token, exp}` is then stored and the user is logged in |
| Session.LoginWithoutTokenKeepsStorage | app/auth/auth.service.ts:20-30 | login returns false if and only if there is no truthy token; whenever it does not return true, storage is unchanged |
| Session.NonStringTokenThrows | app/auth/auth.service.ts:20-24 | a truthy token that is not a string makes the handler throw |
| Session.LoginWithToken | app/auth/auth.service.ts:20-26 | a `{token}` response with a readable expiration stores the record with that expiration |
| Session.LoginRejectedToken | app/auth/auth.service.ts:20-26 | a `{token}` response whose expiration cannot be read makes the handler throw that error and leaves storage unchanged |
| Session.LoginWithIssuedToken | app/auth/auth.service.ts:20-26 | a token built from a padded Base64 claims payload without an own `hasOwnProperty` member logs the user in with its `exp` claim stored, or -1 without one |
| Session.LoginWithShadowingToken | app/auth/auth.service.ts:20-26 | a token whose claims object has its own `hasOwnProperty` member makes the handler throw and leaves storage unchanged |
| Session.LogoutLogsOut | app/auth/auth.service.ts:34-47 | after `logout` the user is not logged in, other keys are unchanged, and a second `logout` changes nothing |
| Session.LoginThenLogout | app/auth/auth.service.ts:13-47 | a successful login followed by a logout leaves the other keys as before and the user logged out |
| ErrorHandling.Chain | app/error/GlobalErrorHandler.ts:110-115 | the chain starts at the error itself |
| ErrorHandling.OriginalErrorIsRoot | app/error/GlobalErrorHandler.ts:110-115 | the original error is the last of the chain; a truthy error unwraps to a truthy error with no truthy cause; a falsy error comes back unchanged; unwrapping is idempotent |
| ErrorHandling.ChainStep | app/error/GlobalErrorHandler.ts:111-113 | each loop step stays within the chain |
| ErrorHandling.GlobalErrorHandler.FindOriginalError | app/error/GlobalErrorHandler.ts:110-115 | the loop returns the last error of the chain, which has no truthy cause, and is truthy exactly when the input is |
| ErrorHandling.GlobalErrorHandler.NavigateLogin | app/error/GlobalErrorHandler.ts:103-107 | logs the user out, then navigates to `['/login']` |
| ErrorHandling.GlobalErrorHandler.HandleError | app/error/GlobalErrorHandler.ts:53-97 | appends the console, logging and redirect events `HandleEvents` specifies, logs out only on a redirect, and rethrows exactly when configured |
| ErrorHandling.GlobalErrorHandler.constructor | app/error/GlobalErrorHandler.ts:38-44 | the handler keeps its options and `AuthService` and starts with no events |
| ErrorHandling.RedirectIffUnauthorizedResponse | app/error/GlobalErrorHandler.ts:81-119 | logout then navigation to `['/login']` happen, once and in that order, if and only if the error is a `Response` with status 0, 401 or 403 |
| ErrorHandling.LoggedPayloadUnwraps | app/error/GlobalErrorHandler.ts:69-73 | the log service receives the raw error without `unwrapError`; with it, the innermost error of the chain; the payload is null exactly when the error is |
| ErrorHandling.NullishErrorReportsTwoFailures | app/error/GlobalErrorHandler.ts:56-79 | a null error makes both the console and the logging step fail, and both failures are caught |
| ErrorHandling.DefaultOptionsSwallow | app/error/GlobalErrorHandler.ts:18-96 | with the default options the handler returns normally and logs the error as thrown |
| ErrorHandling.ReportedUnlessNullish | app/error/GlobalErrorHandler.ts:56-79 | a non-null error is reported to the console and logged, whatever the options |

## Left out

- The RxJS plumbing is not modelled. This covers `AuthHttp.request`, `tokenStream`, `Observable.defer`, the `Promise` branch of `tokenGetter` and the `map` in `login`. It is asynchronous composition.
- The Angular `Http` transport is not modelled: `requestHelper`, `RequestOptions.merge` and the verb helpers; of `mergeOptions` only its `setGlobalHeaders` call is modelled (`AuthJwt.FactoryRequest`). Neither is the HTTP POST that `login` sends. That code lives in a library that is not part of this model. `Login` receives the parsed response body instead.
- `JSON.parse` of the token payload is a parameter. JSON numbers are integral. `JSON.stringify` of the stored record is not modelled: storage holds `UserRecord` values, so the record's JSON text round trip is not captured. `response.json()` is not modelled either: `Login` receives an already parsed body, so a `SyntaxError` from an unparsable response cannot be represented.
- Wall-clock reads (`new Date()`) are a parameter `nowMs`. `getTokenExpirationDate` and `isTokenExpired` are not modelled, because they only wrap `Date` objects around the same claim. Floating-point seconds in `exp` are not modelled.
- Copying symbol properties in `objectAssign` is not modelled; it is JavaScript reflection. Neither is `toObject` throwing on a `null` target: the target is always `{}` here.
- Jwt.IsTokenExpiredWithExp: `exp` and `offsetSeconds` are integers; a fractional offset, and a non-numeric `exp` claim, coerced by `setUTCSeconds`, are not modelled.
- AuthJwt.ObjectAssign: the target is a returned map, not an object changed in place, so aliasing of the target is not modelled. Sources are objects: `null` or `undefined` sources, which `Object()` turns into `{}`, are not passed by the code shown.
- AuthJwt.AuthConfig.constructor: requires an explicitly given `headerName`, `headerPrefix` and `globalHeaders` to have their declared types (string, string or null, array). An explicit `undefined` header name is not modelled. `getConfig` is the field itself.
- AuthJwt.AuthHttp.SetGlobalHeaders: a header object is modelled by its first own key and that key's value; an empty header object, whose first key is `undefined`, is not modelled. `Headers` is a map with case-sensitive names and one value per name; Angular's case-insensitive name matching and multi-value `append` are not modelled.
- AuthJwt.AuthHttp.RequestWithToken: requires the request's headers to exist, as the code assumes; sending the request is not modelled. The token is a string: when nobody is stored, the default getter returns `null` and the source sends `Authorization: Bearer null`, which is not modelled.
- Session.IsLoggedIn: reads the record this service stores. A `currentUser` value written by other code, or malformed JSON in storage (which makes `loggedIn` throw), is not modelled. `loggedIn` returns `true` or `undefined`; the model returns a boolean.
- The value of `Constants.CURRENT_USER` comes from `app/auth/Constants.ts`, which is not part of this model. It is taken to be "currentUser"; only its identity matters.
- The default `tokenGetter` reads storage through `JSON.parse`. It is modelled as the tag `StoredUserToken`, not as a function.
- `ErrorLogService` is modelled only as the event it produces. Its console output and the commented-out server POST are I/O. The `console.group`/`console.warn` calls are folded into one event per step. The handler assumes `console` exists.
- ErrorHandling.GlobalErrorHandler.FindOriginalError: `Thrown` is an inductive datatype, so every `originalError` chain is finite. A cyclic chain (an error that is its own `originalError`) cannot be written down; on one the source loops forever with `unwrapError` set, and so does `handleError`.
- Base64.DecodeFullBlocks: the loop of `base64Decode` is its own method, called by `Base64Decode`, rather than inline.
- Base64Reference.Latin1: states only its length; the per-character meaning is in its definition and in `Base64Properties.DecodeLength`.
- Dependency injection and module wiring are not modelled: `AUTH_PROVIDERS`, `provideAuth`, `app.module.ts` and `main.ts`. `app/services/user.service.ts` is not part of this model. The factory options of `auth.module.ts` appear only as an example input (`AuthJwt.FactoryConfiguration`).
