/** The exceptions the network clients raise, as values, and the outcome of one call.

    The class hierarchy of the client libraries matters because the bot tests
    membership with `isinstance` in some places and looks classes up exactly in
    others.  The predicates below give that hierarchy:
    - requests: ConnectTimeout is both a ConnectionError and a Timeout, ReadTimeout
      is a Timeout, SSLError is a ConnectionError;
    - prawcore: BadJSON, ServerError, TooManyRequests, Redirect, Forbidden, NotFound
      and the other subclasses (BadRequest, Conflict, InvalidToken, InsufficientScope,
      SpecialError, TooLarge, URITooLong, UnavailableForLegalReasons) are
      ResponseExceptions; OAuthException and RequestException are not. */
module Faults {

  datatype Fault =
    // prawcore.exceptions
    | BadJSON
    | ServerError
    | TooManyRequests
    | RequestException(original: Fault)   // wraps the lower-level exception it caught
    | ResponseException(status: int)      // exactly ResponseException, with its HTTP status
    | OAuthException
    | Redirect
    | Forbidden
    | NotFound
    | OtherResponse(className: string)    // any other ResponseException subclass (BadRequest, Conflict, InvalidToken, ...)
    // requests.exceptions
    | ConnectionError
    | ConnectTimeout
    | ReadTimeout
    | Timeout
    | SSLError
    // atproto exceptions
    | NetworkError
    | InvokeTimeoutError
    // raised by Python while the bot reads a reply
    | KeyError(key: string)
    | JSONDecodeError
    // anything else
    | Other(name: string)

  /** `isinstance(f, requests.exceptions.ConnectionError)`. */
  predicate IsConnectionError(f: Fault)
  {
    f.ConnectionError? || f.ConnectTimeout? || f.SSLError?
  }

  /** `isinstance(f, requests.exceptions.Timeout)`. */
  predicate IsTimeout(f: Fault)
  {
    f.Timeout? || f.ConnectTimeout? || f.ReadTimeout?
  }

  /** `isinstance(f, prawcore.exceptions.ResponseException)`. */
  predicate IsResponseException(f: Fault)
  {
    f.ResponseException? || f.BadJSON? || f.ServerError? || f.TooManyRequests?
    || f.Redirect? || f.Forbidden? || f.NotFound? || f.OtherResponse?
  }

  /** `exception.__class__.__name__`. */
  function ClassName(f: Fault): string
  {
    match f
    case BadJSON => "BadJSON"
    case ServerError => "ServerError"
    case TooManyRequests => "TooManyRequests"
    case RequestException(_) => "RequestException"
    case ResponseException(_) => "ResponseException"
    case OAuthException => "OAuthException"
    case Redirect => "Redirect"
    case Forbidden => "Forbidden"
    case NotFound => "NotFound"
    case OtherResponse(name) => name
    case ConnectionError => "ConnectionError"
    case ConnectTimeout => "ConnectTimeout"
    case ReadTimeout => "ReadTimeout"
    case Timeout => "Timeout"
    case SSLError => "SSLError"
    case NetworkError => "NetworkError"
    case InvokeTimeoutError => "InvokeTimeoutError"
    case KeyError(_) => "KeyError"
    case JSONDecodeError => "JSONDecodeError"
    case Other(name) => name
  }

  /** What one attempt of a network call does: returns a value or raises. */
  datatype Outcome<+T> = Ok(value: T) | Raise(fault: Fault)

  /** What a (possibly retried) call ends with.  `Exhausted` means the prescribed
      outcomes ran out while the call was still being retried. */
  datatype CallResult<+T> = Returned(value: T) | Raised(fault: Fault) | Exhausted
  {
    /** The same failure, for a caller whose own result has another type. */
    function Failed<U>(): (r: CallResult<U>)
      requires !Returned?
      ensures r.Raised? == Raised? && (Raised? ==> r.fault == fault)
    {
      if Raised? then Raised(fault) else Exhausted
    }
  }
}
