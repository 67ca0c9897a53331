/**
 * The configuration half of `auth-jwt.ts`: `objectAssign`, the `AuthConfig`
 * constructor that merges a caller's options over `AuthConfigDefaults` and
 * resolves the header prefix, and the header writes of `AuthHttp`
 * (`setGlobalHeaders`, `requestWithToken`). Configuration objects are maps
 * from property names to values; a request's `Headers` is a map from header
 * name to value.
 */
module AuthJwt {
  import opened Wrappers

  /** The token getters a configuration can hold: the built-in one that reads the stored user, or a caller's own. */
  datatype TokenGetter = StoredUserToken | Custom(name: string)

  /** A global header object `{name: value}`, by its first own key (`Object.keys(header)[0]`) and that key's value. */
  datatype Header = Header(name: string, value: string)

  /** The JavaScript values found in configuration objects. */
  datatype JsValue =
    | Undefined
    | Null
    | Bool(b: bool)
    | Str(s: string)
    | HeaderList(headers: seq<Header>)
    | Getter(getter: TokenGetter)

  /** A plain object: its own enumerable string-keyed properties. */
  type JsObject = map<string, JsValue>

  /** JavaScript truthiness for these values (arrays and functions are objects, hence truthy). */
  predicate Truthy(v: JsValue) {
    match v
    case Undefined => false
    case Null => false
    case Bool(b) => b
    case Str(s) => s != ""
    case HeaderList(_) => true
    case Getter(_) => true
  }

  const HeaderNameKey: string := "headerName"
  const HeaderPrefixKey: string := "headerPrefix"
  const TokenGetterKey: string := "tokenGetter"
  const GlobalHeadersKey: string := "globalHeaders"
  const NoTokenSchemeKey: string := "noTokenScheme"

  /** `AuthConfigConsts.DEFAULT_HEADER_NAME` */
  const DefaultHeaderName: string := "Authorization"
  /** `AuthConfigConsts.HEADER_PREFIX_BEARER` */
  const HeaderPrefixBearer: string := "Bearer "

  /** `AuthConfigDefaults` */
  const Defaults: JsObject := map[
    HeaderNameKey := Str(DefaultHeaderName),
    HeaderPrefixKey := Null,
    TokenGetterKey := Getter(StoredUserToken),
    GlobalHeadersKey := HeaderList([]),
    NoTokenSchemeKey := Bool(false)]

  /** `objectAssign(target, ...sources)` as a value: each source's own properties copied over in turn. */
  function AssignAll(target: JsObject, sources: seq<JsObject>): JsObject {
    if |sources| == 0 then target
    else AssignAll(target, sources[..|sources| - 1]) + sources[|sources| - 1]
  }

  /** The index of the last source that has `key`, or -1. */
  function LastWith(sources: seq<JsObject>, key: string): (i: int)
    ensures -1 <= i < |sources|
    ensures i >= 0 ==> key in sources[i]
    ensures forall j :: i < j < |sources| ==> key !in sources[j]
  {
    if |sources| == 0 then -1
    else if key in sources[|sources| - 1] then |sources| - 1
    else LastWith(sources[..|sources| - 1], key)
  }

  /** Later sources win: a key takes its value from the last source that has it, else keeps the target's. */
  lemma {:induction false} LaterSourceWins(target: JsObject, sources: seq<JsObject>, key: string)
    ensures key in AssignAll(target, sources) <==> key in target || LastWith(sources, key) >= 0
    ensures LastWith(sources, key) >= 0 ==> AssignAll(target, sources)[key] == sources[LastWith(sources, key)][key]
    ensures LastWith(sources, key) < 0 && key in target ==> AssignAll(target, sources)[key] == target[key]
  {
    if |sources| > 0 {
      LaterSourceWins(target, sources[..|sources| - 1], key);
    }
  }

  /** Moving one property from the pending source onto the target leaves their union unchanged. */
  lemma MoveProperty(r: JsObject, rest: JsObject, key: string)
    requires key in rest
    ensures r[key := rest[key]] + (rest - {key}) == r + rest
  {
  }

  /** The inner loop of `objectAssign`: copies each own property of `from` onto `to`. */
  method CopyProperties(to: JsObject, from: JsObject) returns (r: JsObject)
    ensures r == to + from
  {
    r := to;
    var rest := from;
    while rest != map[]
      invariant r + rest == to + from
      decreases rest.Keys
    {
      var key :| key in rest;
      MoveProperty(r, rest, key);
      r := r[key := rest[key]];
      rest := rest - {key};
    }
    assert r + rest == r;
  }

  /** `objectAssign`: for each source in order, copies every own property onto the target. */
  method ObjectAssign(target: JsObject, sources: seq<JsObject>) returns (to: JsObject)
    ensures to == AssignAll(target, sources)
  {
    to := target;
    var s := 0;
    while s < |sources|
      invariant 0 <= s <= |sources|
      invariant to == AssignAll(target, sources[..s])
    {
      to := CopyProperties(to, sources[s]);
      assert sources[..s + 1][..s] == sources[..s];
      s := s + 1;
    }
    assert sources[..s] == sources;
  }

  /** The property types of `IAuthConfigOptional` where the model relies on them. */
  predicate ConfigTyped(options: JsObject) {
    && (HeaderNameKey in options ==> options[HeaderNameKey].Str?)
    && (HeaderPrefixKey in options ==> options[HeaderPrefixKey].Undefined? || options[HeaderPrefixKey].Null? || options[HeaderPrefixKey].Str?)
    && (GlobalHeadersKey in options ==> options[GlobalHeadersKey].HeaderList?)
  }

  /** A resolved configuration: a header name, a header prefix string and a list of global headers. */
  predicate ConfigResolved(config: JsObject) {
    && HeaderNameKey in config && config[HeaderNameKey].Str?
    && HeaderPrefixKey in config && config[HeaderPrefixKey].Str?
    && GlobalHeadersKey in config && config[GlobalHeadersKey].HeaderList?
  }

  /** The header prefix rule: a truthy prefix gets a space, else `noTokenScheme` gives "", else "Bearer ". */
  function ResolvePrefix(merged: JsObject): JsValue
    requires HeaderPrefixKey in merged && NoTokenSchemeKey in merged
  {
    match merged[HeaderPrefixKey]
    case Str(p) =>
      if p != "" then Str(p + " ")
      else if Truthy(merged[NoTokenSchemeKey]) then Str("") else Str(HeaderPrefixBearer)
    case _ =>
      if Truthy(merged[NoTokenSchemeKey]) then Str("") else Str(HeaderPrefixBearer)
  }

  /** The configuration the constructor leaves in `_config` for the options `given` (`{}` when none). */
  function Configured(given: JsObject): JsObject {
    var merged := AssignAll(map[], [Defaults, given]);
    assert HeaderPrefixKey in merged && NoTokenSchemeKey in merged by {
      LaterSourceWins(map[], [Defaults, given], HeaderPrefixKey);
      LaterSourceWins(map[], [Defaults, given], NoTokenSchemeKey);
    }
    var getter := if TokenGetterKey in given && Truthy(given[TokenGetterKey]) then given[TokenGetterKey] else Getter(StoredUserToken);
    merged[HeaderPrefixKey := ResolvePrefix(merged)][TokenGetterKey := getter]
  }

  /** The options' own properties, with the defaults beneath them. */
  lemma MergedLookup(given: JsObject, key: string)
    ensures key in AssignAll(map[], [Defaults, given]) <==> key in Defaults || key in given
    ensures key in given ==> AssignAll(map[], [Defaults, given])[key] == given[key]
    ensures key !in given && key in Defaults ==> AssignAll(map[], [Defaults, given])[key] == Defaults[key]
  {
    LaterSourceWins(map[], [Defaults, given], key);
  }

  /**
   * The prefix the constructor settles on, in terms of the caller's options:
   * a non-empty `headerPrefix` with one space appended; otherwise "" when
   * `noTokenScheme` is true; otherwise "Bearer ".
   */
  lemma HeaderPrefixResolution(given: JsObject)
    requires ConfigTyped(given)
    ensures Configured(given)[HeaderPrefixKey] ==
      if HeaderPrefixKey in given && given[HeaderPrefixKey].Str? && given[HeaderPrefixKey].s != "" then Str(given[HeaderPrefixKey].s + " ")
      else if NoTokenSchemeKey in given && Truthy(given[NoTokenSchemeKey]) then Str("")
      else Str(HeaderPrefixBearer)
  {
    MergedLookup(given, HeaderPrefixKey);
    MergedLookup(given, NoTokenSchemeKey);
  }

  /**
   * Every other property comes from the options when they have it and from
   * the defaults otherwise; the token getter is the caller's when truthy and
   * the built-in one otherwise.
   */
  lemma ConfiguredOverrides(given: JsObject, key: string)
    requires key != HeaderPrefixKey && key != TokenGetterKey
    ensures key in Configured(given) <==> key in Defaults || key in given
    ensures key in given ==> Configured(given)[key] == given[key]
    ensures key !in given && key in Defaults ==> Configured(given)[key] == Defaults[key]
    ensures Configured(given)[TokenGetterKey] ==
      if TokenGetterKey in given && Truthy(given[TokenGetterKey]) then given[TokenGetterKey] else Getter(StoredUserToken)
  {
    MergedLookup(given, key);
  }

  /** Typed options give a resolved configuration. */
  lemma ConfiguredResolved(given: JsObject)
    requires ConfigTyped(given)
    ensures ConfigResolved(Configured(given))
  {
    MergedLookup(given, HeaderNameKey);
    MergedLookup(given, GlobalHeadersKey);
    HeaderPrefixResolution(given);
  }

  /** The JSON content-type header the factory options carry. */
  const JsonContentType: Header := Header("Content-Type", "application/json;charset=UTF-8")

  /** The options `authHttpServiceFactory` passes: an unknown `tokenName` and one JSON content-type header. */
  const FactoryOptions: JsObject := map[
    "tokenName" := Str("token"),
    GlobalHeadersKey := HeaderList([JsonContentType])]

  /** With those options the header is "Authorization: Bearer <token>" and the extra key is kept. */
  lemma FactoryConfiguration()
    ensures ConfigResolved(Configured(FactoryOptions)) && "tokenName" in Configured(FactoryOptions)
    ensures Configured(FactoryOptions)[HeaderNameKey] == Str("Authorization")
    ensures Configured(FactoryOptions)[HeaderPrefixKey] == Str("Bearer ")
    ensures Configured(FactoryOptions)["tokenName"] == Str("token")
    ensures Configured(FactoryOptions)[TokenGetterKey] == Getter(StoredUserToken)
  {
    ConfiguredResolved(FactoryOptions);
    ConfiguredOverrides(FactoryOptions, HeaderNameKey);
    ConfiguredOverrides(FactoryOptions, "tokenName");
    HeaderPrefixResolution(FactoryOptions);
  }

  /** `AuthConfig`: holds the merged configuration `_config`. */
  class AuthConfig {
    var config: JsObject

    /** `new AuthConfig(config?)` */
    constructor(options: Option<JsObject>)
      requires options.None? || ConfigTyped(options.value)
      ensures config == Configured(options.GetOr(map[]))
      ensures ConfigResolved(config)
    {
      var given := options.GetOr(map[]);
      var c := ObjectAssign(map[], [Defaults, given]);
      MergedLookup(given, HeaderPrefixKey);
      MergedLookup(given, NoTokenSchemeKey);
      var prefix := c[HeaderPrefixKey];
      if Truthy(prefix) {
        c := c[HeaderPrefixKey := Str(prefix.s + " ")];
      } else if Truthy(c[NoTokenSchemeKey]) {
        c := c[HeaderPrefixKey := Str("")];
      } else {
        c := c[HeaderPrefixKey := Str(HeaderPrefixBearer)];
      }
      if !(TokenGetterKey in given && Truthy(given[TokenGetterKey])) {
        c := c[TokenGetterKey := Getter(StoredUserToken)];
      } else {
        MergedLookup(given, TokenGetterKey);
      }
      ConfiguredResolved(given);
      config := c;
    }
  }

  /** The last value given to header `name` in `headers`, if any. */
  function LastHeader(headers: seq<Header>, name: string): Option<string> {
    if |headers| == 0 then None
    else if headers[|headers| - 1].name == name then Some(headers[|headers| - 1].value)
    else LastHeader(headers[..|headers| - 1], name)
  }

  /** The header map after `set(name, value)` for each global header in order. */
  function ApplyHeaders(existing: map<string, string>, headers: seq<Header>): map<string, string> {
    if |headers| == 0 then existing
    else ApplyHeaders(existing, headers[..|headers| - 1])[headers[|headers| - 1].name := headers[|headers| - 1].value]
  }

  /** Global headers overwrite: each name ends with its last global value; other headers keep theirs. */
  lemma {:induction false} GlobalHeadersOverwrite(existing: map<string, string>, headers: seq<Header>, name: string)
    ensures name in ApplyHeaders(existing, headers) <==> name in existing || LastHeader(headers, name).Some?
    ensures LastHeader(headers, name).Some? ==> ApplyHeaders(existing, headers)[name] == LastHeader(headers, name).value
    ensures LastHeader(headers, name).None? && name in existing ==> ApplyHeaders(existing, headers)[name] == existing[name]
  {
    if |headers| > 0 {
      GlobalHeadersOverwrite(existing, headers[..|headers| - 1], name);
    }
  }

  /** A `Request` (or `RequestOptionsArgs`): its `headers`, possibly absent. */
  class Request {
    var headers: Option<map<string, string>>

    constructor(headers: Option<map<string, string>>)
      ensures this.headers == headers
    {
      this.headers := headers;
    }
  }

  /** `AuthHttp`, for its header writes. */
  class AuthHttp {
    const config: JsObject

    /** `new AuthHttp(options, ...)`: keeps `options.getConfig()`. */
    constructor(options: AuthConfig)
      requires ConfigResolved(options.config)
      ensures config == options.config && ConfigResolved(config)
    {
      config := options.config;
    }

    /** `setGlobalHeaders`: creates the header map if absent, then sets each header object's first key to its value. */
    method SetGlobalHeaders(headers: seq<Header>, request: Request)
      modifies request
      ensures request.headers == Some(ApplyHeaders(old(request.headers).GetOr(map[]), headers))
    {
      if request.headers.None? {
        request.headers := Some(map[]);
      }
      ghost var start := request.headers.value;
      var i := 0;
      while i < |headers|
        invariant 0 <= i <= |headers|
        invariant request.headers == Some(ApplyHeaders(start, headers[..i]))
      {
        var header := headers[i];
        request.headers := Some(request.headers.value[header.name := header.value]);
        assert headers[..i + 1][..i] == headers[..i];
        i := i + 1;
      }
      assert headers[..i] == headers;
    }

    /** `requestWithToken`: sets the configured header to prefix plus token (the request is then sent). */
    method RequestWithToken(req: Request, token: string)
      requires ConfigResolved(config) && req.headers.Some?
      modifies req
      ensures req.headers == Some(old(req.headers.value)[config[HeaderNameKey].s := config[HeaderPrefixKey].s + token])
    {
      req.headers := Some(req.headers.value[config[HeaderNameKey].s := config[HeaderPrefixKey].s + token]);
    }
  }

  /**
   * With the factory configuration, a request without headers that receives
   * the configured global headers and then the token header carries exactly
   * the JSON content type and `Authorization: Bearer <token>`.
   */
  lemma FactoryRequestHeaders(token: string)
    ensures ConfigResolved(Configured(FactoryOptions))
    ensures var c := Configured(FactoryOptions);
      var h := ApplyHeaders(map[], c[GlobalHeadersKey].headers)[c[HeaderNameKey].s := c[HeaderPrefixKey].s + token];
      h == map[JsonContentType.name := JsonContentType.value, DefaultHeaderName := HeaderPrefixBearer + token]
  {
    FactoryConfiguration();
    ConfiguredOverrides(FactoryOptions, GlobalHeadersKey);
    var c := Configured(FactoryOptions);
    assert c[GlobalHeadersKey].headers == [JsonContentType];
    assert ApplyHeaders(map[], [JsonContentType]) == ApplyHeaders(map[], [])[JsonContentType.name := JsonContentType.value];
  }

  /**
   * The header path of one request under the factory configuration: the
   * options carry no headers, `mergeOptions` writes the global headers, and
   * `requestWithToken` adds the token header.
   */
  method FactoryRequest(token: string) returns (headers: map<string, string>)
    ensures headers == map[JsonContentType.name := JsonContentType.value, DefaultHeaderName := HeaderPrefixBearer + token]
  {
    FactoryConfiguration();
    var options := new AuthConfig(Some(FactoryOptions));
    var http := new AuthHttp(options);
    var req := new Request(None);
    http.SetGlobalHeaders(http.config[GlobalHeadersKey].headers, req);
    http.RequestWithToken(req, token);
    FactoryRequestHeaders(token);
    headers := req.headers.value;
  }
}
