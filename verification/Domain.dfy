/** Failure-carrying results used throughout the model. */
module Wrappers {
  datatype Option<+T> = None | Some(value: T)

  datatype Result<+T, +E> = Ok(value: T) | Err(error: E)
}

/** Facts about finite sets. */
module Sets {
  lemma NonEmpty<T>(s: set<T>)
    requires s != {}
    ensures exists x :: x in s
  {
    if forall x :: x !in s { assert false; }
  }

  lemma Pick<T>(s: set<T>) returns (x: T)
    requires s != {}
    ensures x in s
  {
    NonEmpty(s);
    x :| x in s;
  }

  lemma NothingLeft<T>(a: set<T>, b: set<T>)
    requires a - b == {}
    ensures a <= b
  {
    forall x | x in a ensures x in b { if x !in b { var left := x in a - b; assert false; } }
  }

  lemma SubsetSize<T>(a: set<T>, b: set<T>)
    requires a <= b
    ensures |a| <= |b| && (|a| == |b| ==> a == b)
  {
    assert b == a + (b - a);
  }

  lemma UnionSize<T>(a: set<T>, b: set<T>)
    requires a !! b
    ensures |a + b| == |a| + |b|
  {}
}

/** The domain types: update requests and their status machine, currency
    rates and their admission rule, classified provider errors. */
module Domain {
  import opened Wrappers

  /** Nanoseconds since Go's zero instant, so that the zero time.Time is 0. */
  type Time = int
  /** Nanoseconds. */
  type Duration = int
  /** An update id: only equality and the total order of its text matter. */
  type Id = int

  const ZERO_TIME: Time := 0
  const SECOND: Duration := 1_000_000_000
  const MINUTE: Duration := 60 * SECOND
  const HOUR: Duration := 60 * MINUTE

  datatype Pair = Pair(base: string, quote: string)

  datatype Status = Pending | InProgress | Succeeded | Failed {
    /** The rows of the allowed-next-status table; a terminal status has none. */
    predicate CanTransitionTo(next: Status) {
      match this
      case Pending => next == InProgress
      case InProgress => next in {Succeeded, Failed, Pending}
      case _ => false
    }

    predicate Terminal() {
      Succeeded? || Failed?
    }
  }

  datatype Error =
    | NotFound
    | KeyExists
    | IdempotencyConflict
    | InvalidTransition(from: Status, to: Status)
    | ChangedConcurrently
    | UnknownQuote
    | DuplicateId
    | InvalidPair

  /** An empty errorCode is "never failed". */
  datatype Request = Request(
    id: Id, pair: Pair, status: Status, createdAt: Time, updatedAt: Time,
    attempts: int, errorCode: string, errorMessage: string, reused: bool)
  {
    function TransitionTo(next: Status, now: Time): Result<Request, Error> {
      if status.CanTransitionTo(next) then Ok(this.(status := next, updatedAt := now))
      else Err(InvalidTransition(status, next))
    }
  }

  function NewRequest(id: Id, pair: Pair, now: Time): Request {
    Request(id, pair, Pending, now, now, 0, "", "", false)
  }

  const MAX_QUOTED_AT_SKEW: Duration := 5 * MINUTE

  datatype Rate = Rate(
    value: real, derived: bool, quality: string, quotedAt: Time,
    provider: string, indicative: bool, fetchedAt: Time, staleAfter: Time)

  datatype RateFault = NotPositive | ZeroQuotedAt | QuotedTooFarAhead

  /** The journal's admission rule. */
  function NewCurrencyRate(value: real, derived: bool, quality: string, provider: string,
                           indicative: bool, quotedAt: Time, fetchedAt: Time, staleAfter: Time)
    : Result<Rate, RateFault>
  {
    if value <= 0.0 then Err(NotPositive)
    else if quotedAt == ZERO_TIME then Err(ZeroQuotedAt)
    else if quotedAt > fetchedAt + MAX_QUOTED_AT_SKEW then Err(QuotedTooFarAhead)
    else Ok(Rate(value, derived, quality, quotedAt, provider, indicative, fetchedAt, staleAfter))
  }

  datatype ErrorCode =
    | InvalidRequest | UnsupportedPair | Auth | QuotaExceeded | RateLimited
    | ProviderUnavailable | UnclassifiedProvider | MalformedResponse | Internal
  {
    function Wire(): string {
      match this
      case InvalidRequest => "invalid_request"
      case UnsupportedPair => "unsupported_pair"
      case Auth => "auth_error"
      case QuotaExceeded => "quota_exceeded"
      case RateLimited => "rate_limited"
      case ProviderUnavailable => "provider_unavailable"
      case UnclassifiedProvider => "unclassified_provider"
      case MalformedResponse => "malformed_response"
      case Internal => "internal_error"
    }
  }

  /** A classified provider error; a retryAfter of 0 is "not given". */
  datatype RateError = RateError(code: ErrorCode, message: string, retryable: bool, retryAfter: Duration,
      providerCode: string) {
    function Text(): string {
      code.Wire() + " error: " + message
      + if providerCode != "" then " (upstream code: " + providerCode + ")" else ""
    }
  }
}
