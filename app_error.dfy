/**
 * `AppError`: the errors the app shows, the classifier `from(_:)` that turns
 * any thrown error into one, and the predicates the UI uses to decide
 * whether to offer a retry.
 *
 * A thrown error is either already an `AppError`, or a foreign error seen
 * through its localized description and whether its domain is
 * `NSURLErrorDomain`.  The localized "invalid base URL" message is a
 * parameter.
 */
module AppErrors {
  import Text

  datatype AppError =
    | ConnectionFailed(detail: string)
    | ServerError(detail: string)
    | InvalidResponse
    | Unauthorized
    | SessionNotFound
    | FileNotFound(path: string)
    | OperationFailed(detail: string)
    | Unknown(detail: string)
  {
    /** `isConnectionError`. */
    predicate IsConnectionError()
      ensures IsConnectionError() ==> IsRecoverable()
    {
      ConnectionFailed?
    }

    /** `isRecoverable`. */
    predicate IsRecoverable()
      ensures IsRecoverable() ==> ConnectionFailed? || Unauthorized? || ServerError?
    {
      match this
      case ConnectionFailed(_) => true
      case Unauthorized => true
      case ServerError(_) => true
      case InvalidResponse => false
      case SessionNotFound => false
      case FileNotFound(_) => false
      case OperationFailed(_) => false
      case Unknown(_) => false
    }
  }

  /** What `from(_:)` can see of a thrown error. */
  datatype ErrorInput =
    | App(error: AppError)
    | Foreign(description: string, inUrlDomain: bool)

  predicate MentionsUnauthorized(s: string) {
    Text.Contains(s, "401") || Text.Contains(s, "Unauthorized")
  }

  predicate MentionsInvalidUrl(s: string) {
    Text.Contains(s, "invalid URL") || Text.Contains(s, "Invalid URL")
  }

  predicate MentionsHttp(s: string) {
    Text.Contains(s, "HTTP")
  }

  /** `AppError.from`: an `AppError` passes through; otherwise the description decides, in a fixed order. */
  function From(err: ErrorInput, invalidBaseUrlMessage: string): (r: AppError)
    ensures err.App? ==> r == err.error
    ensures err.Foreign? ==> !r.InvalidResponse? && !r.SessionNotFound? && !r.FileNotFound?
  {
    match err
    case App(e) => e
    case Foreign(s, inUrlDomain) =>
      if MentionsUnauthorized(s) then Unauthorized
      else if MentionsInvalidUrl(s) then OperationFailed(invalidBaseUrlMessage)
      else if MentionsHttp(s) then ServerError(s)
      else if inUrlDomain then ConnectionFailed(s)
      else Unknown(s)
  }

  // ---------------------------------------------------------------------------
  // Properties

  /** Classifying an already classified error changes nothing. */
  lemma FromIdempotent(err: ErrorInput, m: string)
    ensures From(App(From(err, m)), m) == From(err, m)
  {
  }

  /** `401` or `Unauthorized` anywhere in the description wins over every later rule. */
  lemma UnauthorizedFirst(s: string, inUrlDomain: bool, m: string)
    requires MentionsUnauthorized(s)
    ensures From(Foreign(s, inUrlDomain), m) == Unauthorized
  {
  }

  /** So `HTTP 401` is an authorization failure, not a server error. */
  lemma Http401IsUnauthorized(inUrlDomain: bool, m: string)
    ensures From(Foreign("HTTP 401", inUrlDomain), m) == Unauthorized
  {
    var s := "HTTP 401";
    assert "401" <= s[5..];
    assert Text.Contains(s, "401");
  }

  /** The rules after the first, each applying only when all earlier ones did not. */
  lemma ClassificationOrder(s: string, inUrlDomain: bool, m: string)
    ensures var r := From(Foreign(s, inUrlDomain), m);
      && (!MentionsUnauthorized(s) && MentionsInvalidUrl(s) ==> r == OperationFailed(m))
      && (!MentionsUnauthorized(s) && !MentionsInvalidUrl(s) && MentionsHttp(s) ==> r == ServerError(s))
      && (!MentionsUnauthorized(s) && !MentionsInvalidUrl(s) && !MentionsHttp(s) && inUrlDomain ==> r == ConnectionFailed(s))
      && (!MentionsUnauthorized(s) && !MentionsInvalidUrl(s) && !MentionsHttp(s) && !inUrlDomain ==> r == Unknown(s))
  {
  }

  /** Exactly connection, authorization and server errors are recoverable. */
  lemma RecoverableCases(e: AppError)
    ensures e.IsRecoverable() <==> e.ConnectionFailed? || e.Unauthorized? || e.ServerError?
  {
  }

  /** A foreign error is recoverable exactly when it mentions `401`/`Unauthorized`, or else is not an invalid-URL error and mentions `HTTP` or comes from the URL-loading domain. */
  lemma ForeignRecoverable(s: string, inUrlDomain: bool, m: string)
    ensures From(Foreign(s, inUrlDomain), m).IsRecoverable()
      <==> MentionsUnauthorized(s) || (!MentionsInvalidUrl(s) && (MentionsHttp(s) || inUrlDomain))
  {
  }
}
