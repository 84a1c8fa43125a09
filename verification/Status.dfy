/** What a client polling an update sees, in every reachable state. */
module StatusResponse {
  import opened Wrappers
  import opened Domain
  import opened Queue
  import opened Policy
  import Protocol

  datatype ErrorBody = ErrorBody(code: string, message: string)

  datatype QuoteRate = QuoteRate(price: real, quotedAt: Time, fetchedAt: Time, provider: string, quality: string,
      derived: bool, indicative: bool)

  /** attempts is left out of the JSON when it is 0, the others when None. */
  datatype Response = Response(updateId: Id, pair: Pair, status: Status, quote: Option<QuoteRate>,
                               cached: Option<bool>, attempts: int, error: Option<ErrorBody>)

  const SAFE_MESSAGES: map<string, string> := map[
    "invalid_request" := "the request was invalid",
    "unsupported_pair" := "no rate available for this pair",
    "auth_error" := "the upstream provider rejected the request",
    "quota_exceeded" := "the upstream provider's quota is exhausted",
    "rate_limited" := "rate limited; retry later",
    "provider_unavailable" := "the upstream provider is unavailable",
    "unclassified_provider" := "the upstream provider returned an error",
    "malformed_response" := "the upstream provider returned an unexpected response",
    "internal_error" := "an internal error occurred",
    "attempts_exhausted" := "giving up after repeated failures"]

  const FALLBACK_MESSAGE := "the update failed"

  function SafeErrorMessage(code: string): string {
    if code in SAFE_MESSAGES then SAFE_MESSAGES[code] else FALLBACK_MESSAGE
  }

  function NewQuoteRate(rate: Rate): QuoteRate {
    QuoteRate(rate.value, rate.quotedAt, rate.fetchedAt, rate.provider, rate.quality, rate.derived, rate.indicative)
  }

  function NewUpdateStatusResponse(req: Request, rate: Option<Rate>): Response {
    Response(req.id, req.pair, req.status,
             if rate.Some? then Some(NewQuoteRate(rate.value)) else None,
             if req.status.Succeeded? then Some(req.reused) else None,
             if req.status.Failed? then req.attempts else 0,
             if req.status.Failed? then Some(ErrorBody(req.errorCode, SafeErrorMessage(req.errorCode))) else None)
  }

  /** The response to a poll: the row as read, its rate joined from the journal. */
  function Respond(s: Store, id: Id): Option<Response> {
    match ById(s, id)
    case Err(_) => None
    case Ok((req, rate)) => Some(NewUpdateStatusResponse(req, rate))
  }

  /** Every code a worker writes has its own safe message. */
  lemma WorkerCodesAreSafe(code: string)
    requires WorkerCode(code)
    ensures code in SAFE_MESSAGES && SafeErrorMessage(code) != FALLBACK_MESSAGE
  {
    if code != ATTEMPTS_EXHAUSTED {
      var c: ErrorCode :| code == c.Wire();
      WireIsSafe(c);
    }
  }

  /** Whatever code is stored, its text never reaches a client: the message is
      one of the eleven. */
  lemma MessagesAreFixed(code: string)
    ensures (exists known :: known in SAFE_MESSAGES && SafeErrorMessage(code) == SAFE_MESSAGES[known])
            || SafeErrorMessage(code) == "the update failed"
  {
    if code in SAFE_MESSAGES { assert SafeErrorMessage(code) == SAFE_MESSAGES[code]; }
  }

  /** Which message each kind of failure is shown with. */
  lemma WireIsSafe(c: ErrorCode)
    ensures c.Wire() in SAFE_MESSAGES && SafeErrorMessage(c.Wire()) != FALLBACK_MESSAGE
    ensures SafeErrorMessage(c.Wire()) ==
            match c
            case InvalidRequest => "the request was invalid"
            case UnsupportedPair => "no rate available for this pair"
            case Auth => "the upstream provider rejected the request"
            case QuotaExceeded => "the upstream provider's quota is exhausted"
            case RateLimited => "rate limited; retry later"
            case ProviderUnavailable => "the upstream provider is unavailable"
            case UnclassifiedProvider => "the upstream provider returned an error"
            case MalformedResponse => "the upstream provider returned an unexpected response"
            case Internal => "an internal error occurred"
    ensures SafeErrorMessage("attempts_exhausted") == "giving up after repeated failures"
  {
    match c
    case InvalidRequest =>
    case UnsupportedPair =>
    case Auth =>
    case QuotaExceeded =>
    case RateLimited =>
    case ProviderUnavailable =>
    case UnclassifiedProvider =>
    case MalformedResponse =>
    case Internal =>
  }

  /** What of the row and its rate shows, and where. */
  lemma ResponseShows(req: Request, rate: Option<Rate>)
    ensures var response := NewUpdateStatusResponse(req, rate);
            && response.updateId == req.id && response.pair == req.pair && response.status == req.status
            && (rate == None ==> response.quote == None)
            && (rate.Some? ==>
                  && response.quote.Some?
                  && response.quote.value.price == rate.value.value
                       && response.quote.value.quotedAt == rate.value.quotedAt
                  && response.quote.value.fetchedAt == rate.value.fetchedAt
                  && response.quote.value.provider == rate.value.provider
                  && response.quote.value.quality == rate.value.quality
                  && response.quote.value.derived == rate.value.derived
                  && response.quote.value.indicative == rate.value.indicative)
            && (req.status == Succeeded ==> response.cached == Some(req.reused))
            && (req.status != Succeeded ==> response.cached == None)
            && (req.status == Failed ==>
                  response.attempts == req.attempts
                  && response.error == Some(ErrorBody(req.errorCode, SafeErrorMessage(req.errorCode))))
            && (req.status != Failed ==> response.attempts == 0 && response.error == None)
  {}

  /** In every reachable state of any number of replicas and clients the
      response says what the row and the journal say: a price exactly when the
      row succeeded, with every field of the quote it points at, a quote of the
      row's pair and a positive price; `cached` then and only then, telling
      whether the row reused it; an error exactly when the row failed, with its
      code, its attempts and a message that is not the generic one. */
  lemma ResponsesAreWellFormed(cfg: Protocol.Settings, start: Time, steps: seq<Protocol.Step>, id: Id)
    requires Protocol.Configured(cfg) && Protocol.Runs(cfg, start, steps)
    requires id in Protocol.After(cfg, start, steps).store.rows
    ensures var s := Protocol.After(cfg, start, steps).store;
            var row := s.rows[id];
            && Respond(s, id).Some?
            && (var response := Respond(s, id).value;
                && response.updateId == id && response.status == row.req.status && response.pair == row.req.pair
                && (row.req.status == Succeeded ==>
                      && row.quoteId in s.quotes && s.quotes[row.quoteId].pair == row.req.pair
                      && response.quote.Some? && response.cached == Some(row.req.reused)
                      && (var shown, rate := response.quote.value, s.quotes[row.quoteId].rate;
                          && shown.price == rate.value && rate.value > 0.0
                          && shown.quotedAt == rate.quotedAt && shown.fetchedAt == rate.fetchedAt
                          && shown.provider == rate.provider && shown.quality == rate.quality
                          && shown.derived == rate.derived && shown.indicative == rate.indicative))
                && (row.req.status != Succeeded ==> response.quote == None && response.cached == None)
                && (row.req.status == Failed ==>
                      && response.error.Some? && response.error.value.code == row.req.errorCode
                      && response.error.value.message == SafeErrorMessage(row.req.errorCode)
                      && response.error.value.message != FALLBACK_MESSAGE
                      && response.attempts == row.req.attempts >= 1)
                && (row.req.status != Failed ==> response.error == None && response.attempts == 0))
  {
    Protocol.AlwaysExclusive(cfg, start, steps);
    Protocol.AlwaysInBudget(cfg, start, steps);
    var s := Protocol.After(cfg, start, steps);
    assert RowOk(s.store, id);
    assert Protocol.RowBudget(cfg, s, id);
    if s.store.rows[id].req.status.Failed? { WorkerCodesAreSafe(s.store.rows[id].req.errorCode); }
    var rate := ById(s.store, id).value.1;
    ResponseShows(s.store.rows[id].req, rate);
  }

  /** Over every run of replicas, the operations the run amounts to tell what
      the client sees: the row was closed by one of them, a posted quote shows
      as not cached, a reuse as cached, with the quote it reused, and a
      permanent failure with its code. */
  lemma CachedTellsReuse(cfg: Protocol.Settings, start: Time, steps: seq<Protocol.Step>, id: Id) returns (ops: seq<Op>)
    requires Protocol.Configured(cfg) && Protocol.Runs(cfg, start, steps)
    ensures var s := Protocol.After(cfg, start, steps).store;
            && WorkerRun(EMPTY, ops) && Exec(EMPTY, ops) == s
            && (Closed(s, id) ==>
                  && Respond(s, id).Some? && Closer(EMPTY, ops, id).Some?
                  && (var response := Respond(s, id).value;
                      match Closer(EMPTY, ops, id).value
                      case Success(closed, pair, rate, _) =>
                        && closed == id && response.cached == Some(false) && response.quote.Some?
                        && response.quote.value.provider == rate.provider
                             && response.quote.value.quotedAt == rate.quotedAt
                      case Reuse(closed, quoteId, _) =>
                        && closed == id && response.cached == Some(true) && response.quote.Some?
                        && quoteId in s.quotes && response.quote.value.price == s.quotes[quoteId].rate.value
                      case Failure(closed, code, _, retryable, _, _) =>
                        && closed == id && !retryable && response.error.Some? && response.error.value.code == code
                      case _ => false))
  {
    ops := Protocol.RunOfTheStore(cfg, start, steps);
    var s := Protocol.After(cfg, start, steps).store;
    if Closed(s, id) {
      WorkerRunIsLegal(EMPTY, ops);
      ClosedBy(EMPTY, ops, id);
      ResponsesAreWellFormed(cfg, start, steps, id);
      if Closer(EMPTY, ops, id).value.Success? { PostedQuoteShows(EMPTY, ops, id); }
    }
  }
}
