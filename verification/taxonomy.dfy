/** The exception tables of the current bot: which exceptions are retried, and the
    operator-facing description of each exception class. */
module Taxonomy {
  import opened Common
  import opened Faults

  /** REQUESTS_EXCEPTIONS: requests' ConnectionError, ConnectTimeout and ReadTimeout
      (by `isinstance`, so SSLError counts as a ConnectionError; a bare Timeout does not). */
  predicate IsRequestsException(f: Fault)
  {
    IsConnectionError(f) || f.ConnectTimeout? || f.ReadTimeout?
  }

  /** ATPROTO_EXCEPTIONS: NetworkError and InvokeTimeoutError. */
  predicate IsAtprotoException(f: Fault)
  {
    f.NetworkError? || f.InvokeTimeoutError?
  }

  /** PRAWCORE_EXCEPTIONS: BadJSON, RequestException, ServerError and TooManyRequests. */
  predicate IsPrawcoreException(f: Fault)
  {
    f.BadJSON? || f.RequestException? || f.ServerError? || f.TooManyRequests?
  }

  /** OTHER_PRAWCORE_EXCEPTIONS as an `except` clause sees them: ResponseException
      (with every subclass), OAuthException, Redirect, Forbidden and NotFound. */
  predicate IsOtherPrawcoreException(f: Fault)
  {
    IsResponseException(f) || f.OAuthException? || f.Redirect? || f.Forbidden? || f.NotFound?
  }

  /** RETRY_EXCEPTIONS: the three tuples above together. */
  predicate InRetryExceptions(f: Fault)
  {
    IsPrawcoreException(f) || IsRequestsException(f) || IsAtprotoException(f)
  }

  /** A message of EXCEPTIONS_DESCRIPTIONS: a fixed text, or a text with one
      `{subreddit}` placeholder between `before` and `after`. */
  datatype Template = Fixed(text: string) | AboutSubreddit(before: string, after: string)
  {
    /** The message as written in the table. */
    function Raw(): string
    {
      match this
      case Fixed(text) => text
      case AboutSubreddit(before, after) => before + "{subreddit}" + after
    }

    /** `message.format(subreddit=name)`: the placeholder, when there is one, becomes the name. */
    function Format(name: string): string
    {
      match this
      case Fixed(text) => text
      case AboutSubreddit(before, after) => before + name + after
    }
  }

  /** EXCEPTIONS_DESCRIPTIONS, looked up by the exact class of an exception. */
  function DescriptionOf(cls: Fault): Option<Template>
  {
    match cls
    case ConnectionError => Some(Fixed("Network connection is unavailable"))
    case ConnectTimeout => Some(Fixed("Network timeout occurred"))
    case ReadTimeout => Some(Fixed("Network timeout occurred"))
    case NetworkError => Some(Fixed("Network connection is unavailable"))
    case InvokeTimeoutError => Some(Fixed("Network timeout occurred"))
    case ResponseException(_) => Some(Fixed("Reddit authentication error: wrong client ID and/or client secret"))
    case OAuthException => Some(Fixed("Reddit authentication error: wrong username and/or password"))
    case Redirect => Some(AboutSubreddit("The subreddit r/", " probably doesn't exist"))
    case Forbidden => Some(AboutSubreddit("The subreddit r/", " is probably set to private (only approved members can access it)"))
    case NotFound => Some(AboutSubreddit("The subreddit r/", " is probably banned"))
    case _ => None
  }
}
