/**
 * `GlobalErrorHandler`: reports an error to the console, hands it (or, with
 * `unwrapError`, the innermost error of its `originalError` chain) to
 * `ErrorLogService`, logs the user out and routes to the login page when the
 * error is an unauthorized HTTP `Response`, and rethrows it when
 * `rethrowError` is set. The console, the logging service and the router are
 * observed through a trace of events.
 */
module ErrorHandling {
  import opened Session

  /**
   * A thrown value: `null`/`undefined`, another falsy value (`false`, 0, ""),
   * or a truthy value; of a truthy value the model keeps whether it is an HTTP
   * `Response`, its `status` and its `originalError` property (`Nullish` when absent).
   */
  datatype Thrown =
    | Nullish
    | Falsy
    | Value(isResponse: bool, status: int, originalError: Thrown)

  /** `GlobalErrorHandlerOptions` */
  datatype Options = Options(rethrowError: bool, unwrapError: bool)

  /** `GLOBAL_ERROR_HANDLER_OPTIONS` */
  const DefaultOptions: Options := Options(false, false)

  /** The route `navigateLogin` goes to. */
  const LoginRoute: seq<string> := ["/login"]

  /** What the handler does that can be observed. */
  datatype Event =
    | ConsoleReported(error: Thrown)  // the "ErrorHandler" console group with message and stack
    | ConsoleReportFailed             // reading `message` threw; the warning is printed instead
    | LogSubmitted(error: Thrown)     // `ErrorLogService.logError` completed with this error
    | LogSubmissionFailed             // `logError` threw; the warning is printed instead
    | LoggedOut                       // `AuthService.logout()`
    | Navigated(route: seq<string>)   // `router.navigate(route)`

  /** How `handleError` ends. */
  datatype Completion = Returned | Rethrown(error: Thrown)

  /** The errors `findOriginalError` passes through: `e`, then each truthy `originalError` in turn. */
  function Chain(e: Thrown): (chain: seq<Thrown>)
    ensures |chain| >= 1 && chain[0] == e
  {
    if e.Value? && e.originalError.Value? then [e] + Chain(e.originalError) else [e]
  }

  /** The error `findOriginalError` returns. */
  function OriginalError(e: Thrown): Thrown {
    if e.Value? && e.originalError.Value? then OriginalError(e.originalError) else e
  }

  /**
   * The original error is the last of the chain; a truthy error unwraps to a
   * truthy error with no truthy cause; a falsy one comes back as it is; and
   * unwrapping twice is unwrapping once.
   */
  lemma {:induction false} OriginalErrorIsRoot(e: Thrown)
    ensures OriginalError(e) == Chain(e)[|Chain(e)| - 1]
    ensures e.Value? ==> OriginalError(e).Value? && !OriginalError(e).originalError.Value?
    ensures !e.Value? ==> OriginalError(e) == e
    ensures OriginalError(OriginalError(e)) == OriginalError(e)
  {
    if e.Value? && e.originalError.Value? {
      OriginalErrorIsRoot(e.originalError);
    }
  }

  /** `isUnauthorized` */
  predicate IsUnauthorized(status: int) {
    status == 0 || status == 401 || status == 403
  }

  /** Whether `handleError` logs the user out and routes to the login page. */
  predicate Redirects(error: Thrown) {
    error.Value? && error.isResponse && IsUnauthorized(error.status)
  }

  /** What `handleError` hands to `logError`. */
  function LoggedPayload(options: Options, error: Thrown): Thrown {
    if options.unwrapError then OriginalError(error) else error
  }

  /** The console step: reading `error.message` throws on `null`/`undefined`. */
  function ConsoleEvent(error: Thrown): Event {
    if error.Nullish? then ConsoleReportFailed else ConsoleReported(error)
  }

  /** The logging step: `sendToConsole` reads `error.message`, which throws on `null`/`undefined`. */
  function LogEvent(payload: Thrown): Event {
    if payload.Nullish? then LogSubmissionFailed else LogSubmitted(payload)
  }

  /** Everything one `handleError(error)` does, in order. */
  function HandleEvents(options: Options, error: Thrown): seq<Event> {
    [ConsoleEvent(error), LogEvent(LoggedPayload(options, error))] +
    (if Redirects(error) then [LoggedOut, Navigated(LoginRoute)] else [])
  }

  /** How `handleError(error)` ends. */
  function Outcome(options: Options, error: Thrown): Completion {
    if options.rethrowError then Rethrown(error) else Returned
  }

  /** `GlobalErrorHandler`, with its options, the `AuthService` it logs out through, and what it has done so far. */
  class GlobalErrorHandler {
    const options: Options
    const auth: AuthService
    var trace: seq<Event>

    constructor(options: Options, auth: AuthService)
      ensures this.options == options && this.auth == auth && trace == []
    {
      this.options := options;
      this.auth := auth;
      trace := [];
    }

    /** `findOriginalError`: follows `originalError` while the error and its cause are truthy. */
    method FindOriginalError(error: Thrown) returns (r: Thrown)
      ensures r == OriginalError(error)
      ensures r in Chain(error)
      ensures r.Value? ==> !r.originalError.Value?
      ensures r.Value? <==> error.Value?
    {
      r := error;
      while r.Value? && r.originalError.Value?
        invariant OriginalError(r) == OriginalError(error)
        invariant r in Chain(error)
        invariant r.Value? <==> error.Value?
        decreases r
      {
        ChainStep(error, r);
        r := r.originalError;
      }
    }

    /** `navigateLogin`: logs the user out, then routes to the login page. */
    method NavigateLogin()
      modifies this, auth
      ensures auth.storage == old(auth.storage) - {CurrentUser}
      ensures trace == old(trace) + [LoggedOut, Navigated(LoginRoute)]
    {
      auth.Logout();
      trace := trace + [LoggedOut];
      trace := trace + [Navigated(LoginRoute)];
    }

    /** `handleError` */
    method HandleError(error: Thrown) returns (c: Completion)
      modifies this, auth
      ensures trace == old(trace) + HandleEvents(options, error)
      ensures auth.storage == if Redirects(error) then old(auth.storage) - {CurrentUser} else old(auth.storage)
      ensures c == Outcome(options, error)
    {
      if error.Nullish? {
        trace := trace + [ConsoleReportFailed];
      } else {
        trace := trace + [ConsoleReported(error)];
      }
      var payload := error;
      if options.unwrapError {
        payload := FindOriginalError(error);
      }
      if payload.Nullish? {
        trace := trace + [LogSubmissionFailed];
      } else {
        trace := trace + [LogSubmitted(payload)];
      }
      if error.Value? && error.isResponse && IsUnauthorized(error.status) {
        NavigateLogin();
      }
      if options.rethrowError {
        return Rethrown(error);
      }
      return Returned;
    }
  }

  /** One step down the chain stays in the chain. */
  lemma {:induction false} ChainStep(e: Thrown, r: Thrown)
    requires r in Chain(e) && r.Value? && r.originalError.Value?
    ensures r.originalError in Chain(e)
  {
    if e != r {
      assert e.Value? && e.originalError.Value?;
      assert r in Chain(e.originalError);
      ChainStep(e.originalError, r);
    }
  }

  /**
   * The handler logs the user out and then routes to the login page, once,
   * exactly when the error is a `Response` whose status is 0, 401 or 403.
   */
  lemma RedirectIffUnauthorizedResponse(options: Options, error: Thrown)
    ensures Navigated(LoginRoute) in HandleEvents(options, error) <==>
      error.Value? && error.isResponse && (error.status == 0 || error.status == 401 || error.status == 403)
    ensures LoggedOut in HandleEvents(options, error) <==> Navigated(LoginRoute) in HandleEvents(options, error)
    ensures Navigated(LoginRoute) in HandleEvents(options, error) ==>
      |HandleEvents(options, error)| == 4 &&
      HandleEvents(options, error)[2] == LoggedOut && HandleEvents(options, error)[3] == Navigated(LoginRoute)
  {
    var events := HandleEvents(options, error);
    if !Redirects(error) {
      assert events == [events[0], events[1]];
    }
  }

  /**
   * Without `unwrapError` the logging service receives the error itself; with
   * it, the innermost error of the chain, which has no truthy cause. Either way
   * the payload is `null`/`undefined` exactly when the error is.
   */
  lemma LoggedPayloadUnwraps(options: Options, error: Thrown)
    ensures !options.unwrapError ==> LoggedPayload(options, error) == error
    ensures options.unwrapError ==> LoggedPayload(options, error) in Chain(error)
    ensures options.unwrapError && LoggedPayload(options, error).Value? ==> !LoggedPayload(options, error).originalError.Value?
    ensures LoggedPayload(options, error).Nullish? <==> error.Nullish?
  {
    OriginalErrorIsRoot(error);
  }

  /** A `null`/`undefined` error makes both reporting steps fail, each caught; no redirect follows. */
  lemma NullishErrorReportsTwoFailures(options: Options)
    ensures HandleEvents(options, Nullish) == [ConsoleReportFailed, LogSubmissionFailed]
  {
  }

  /** With the provided defaults the handler returns normally and logs the error as thrown. */
  lemma DefaultOptionsSwallow(error: Thrown)
    ensures Outcome(DefaultOptions, error) == Returned
    ensures HandleEvents(DefaultOptions, error)[1] == (if error.Nullish? then LogSubmissionFailed else LogSubmitted(error))
  {
  }

  /** A non-null error is reported to the console and to the logging service, whatever the options. */
  lemma ReportedUnlessNullish(options: Options, error: Thrown)
    requires !error.Nullish?
    ensures HandleEvents(options, error)[0] == ConsoleReported(error)
    ensures HandleEvents(options, error)[1] == LogSubmitted(LoggedPayload(options, error))
  {
    LoggedPayloadUnwraps(options, error);
  }
}
