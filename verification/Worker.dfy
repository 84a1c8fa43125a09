/** The worker as it runs: effects in order on the repository and the limiter,
    proved against module Policy. */
module WorkerObject {
  import opened Domain
  import opened Queue
  import opened Policy
  import opened Backoff
  import opened RateLimiterObject
  import opened MemoryRepository

  class Worker {
    const repo: Repository
    const limiter: RateLimiter
    const provider: Provider
    const cfg: Config

    constructor (repo: Repository, limiter: RateLimiter, provider: Provider, cfg: Config)
      ensures this.repo == repo && this.limiter == limiter && this.provider == provider && this.cfg == cfg
    {
      this.repo, this.limiter, this.provider, this.cfg := repo, limiter, provider, cfg;
    }

    ghost predicate Valid()
      reads repo, repo.records.Values, limiter
    {
      repo.Valid() && limiter.Valid()
    }

    /** Resolve the request, then record the result; a report other than
        Recorded leaves the row in progress for the reaper. */
    method Process(req: Request, env: Env) returns (report: Report)
      requires Valid()
      modifies repo`quotes, repo`nextQuoteId, repo.records.Values, limiter, limiter.buffer
      ensures Valid() && repo.records == old(repo.records)
      ensures (limiter.buffer == old(limiter.buffer) || fresh(limiter.buffer))
      ensures var quotes := old(repo.quotes);
              var (book, resolution, _) := Policy.Fetch(quotes, Latest(quotes, req.pair), limiter.limits,
                  old(limiter.Value()), provider, env);
              && limiter.Value() == book
              && (repo.Value(), report) == Settle(cfg, old(repo.Value()), req, resolution, env)
    {
      var resolution, called := Fetch(req.pair, env);
      assert repo.Value() == old(repo.Value());
      if resolution.Failing? {
        report := Fail(req, resolution.failure, env);
      } else {
        report := Succeed(req, resolution, env);
      }
    }

    /** A reused quote only points the row at it; a fetched rate is posted first. */
    method Succeed(req: Request, resolution: Resolution, env: Env) returns (report: Report)
      requires Valid() && !resolution.Failing?
      modifies repo`quotes, repo`nextQuoteId, repo.records.Values
      ensures Valid() && repo.records == old(repo.records)
      ensures (repo.Value(), report) == Settle(cfg, old(repo.Value()), req, resolution, env)
    {
      if resolution.Panicked? || !env.written {
        return Lost;
      }
      var outcome: Outcome;
      if resolution.Reused? {
        outcome := repo.CompleteSuccessReuse(req.id, resolution.quoteId, env.now);
      } else {
        outcome := repo.CompleteSuccess(req.id, req.pair, resolution.rate, env.now);
      }
      return Recorded(outcome);
    }

    /** Reuse a still-fresh quote, or spend budget and call the provider. */
    method Fetch(pair: Pair, env: Env) returns (resolution: Resolution, called: bool)
      requires Valid()
      modifies limiter, limiter.buffer
      ensures Valid() && unchanged(repo) && (limiter.buffer == old(limiter.buffer) || fresh(limiter.buffer))
      ensures (limiter.Value(), resolution, called)
              == Policy.Fetch(repo.quotes, Latest(repo.quotes, pair), limiter.limits, old(limiter.Value()), provider,
                  env)
    {
      if env.readFault.Some? {
        return Failing(Unclassified(env.readFault.value)), false;
      }
      var latest := repo.GetLatestQuote(pair);
      if latest.Ok? {
        LatestIs(repo.quotes, pair, latest.value.1);
        if env.readAt < latest.value.0.staleAfter {
          return Reused(latest.value.1), false;
        }
      }
      resolution, called := FetchFresh(env);
    }

    /** Stale or missing: ask the limiter, call the provider, admit its rate. */
    method FetchFresh(env: Env) returns (resolution: Resolution, called: bool)
      requires Valid()
      modifies limiter, limiter.buffer
      ensures Valid() && unchanged(repo) && (limiter.buffer == old(limiter.buffer) || fresh(limiter.buffer))
      ensures (limiter.Value(), resolution, called)
              == Policy.FetchFresh(limiter.limits, old(limiter.Value()), provider, env)
    {
      var ok, retryAfter := limiter.Allow(env.allowAt);
      if !ok {
        return Failing(Classified(RateError(RateLimited, "outbound rate budget exhausted", true, retryAfter, ""))),
            false;
      }
      match env.answer {
        case Panics =>
          return Panicked, true;
        case Fails(failure) =>
          if failure.Classified? && failure.err.retryAfter > 0 {
            limiter.CoolDown(env.answeredAt + failure.err.retryAfter);
          }
          return Failing(failure), true;
        case Quote(value, derived, quality, quotedAt) =>
          var r := NewCurrencyRate(value, derived, quality, provider.name, provider.indicative, quotedAt,
              env.answeredAt,
                                   provider.staleAfter(quality, quotedAt));
          match r {
            case Ok(rate) => return Fetched(rate), true;
            case Err(fault) => return Failing(Classified(RateError(MalformedResponse, FaultText(fault), false, 0,
              ""))), true;
          }
      }
    }

    /** Classify, check the two budgets, back off and record. */
    method Fail(req: Request, failure: Failure, env: Env) returns (report: Report)
      requires Valid()
      modifies repo.records.Values
      ensures Valid() && unchanged(repo)
      ensures (repo.Value(), report) == Settle(cfg, old(repo.Value()), req, Failing(failure), env)
    {
      var attempts, now := req.attempts, env.now;
      var rateErr: RateError;
      match failure {
        case Classified(err) => rateErr := err;
        case Unclassified(message) =>
          if attempts < cfg.maxAttempts && now - req.createdAt < cfg.maxLifetime {
            return Returned;
          }
          rateErr := RateError(Internal, message, false, 0, "");
      }
      var code, text, retryable := rateErr.code.Wire(), rateErr.Text(), rateErr.retryable;
      if retryable && (attempts >= cfg.maxAttempts || now - req.createdAt >= cfg.maxLifetime) {
        retryable := false;
        code := ATTEMPTS_EXHAUSTED;
        text := "giving up after " + Decimal(attempts) + " attempts: " + rateErr.Text();
      }
      var nextAttemptAt := Backoff(rateErr, attempts, now, env.jitter);
      if !env.written {
        return Lost;
      }
      var outcome := repo.CompleteFailure(req.id, code, text, retryable, nextAttemptAt, now);
      return Recorded(outcome);
    }

    /** The delay grows with attempts, is capped, raised to Retry-After and jittered. */
    method Backoff(rateErr: RateError, attempts: int, now: Time, jitter: Jitter) returns (next: Time)
      ensures next == NextAttemptAt(cfg.baseBackoff, cfg.maxBackoff, rateErr.retryAfter, attempts, now, jitter)
    {
      var shift := if attempts - 1 > 0 then attempts - 1 else 0;
      var delay := Wrap64(cfg.baseBackoff * ShiftedOne(shift));
      if delay <= 0 || delay > cfg.maxBackoff {
        delay := cfg.maxBackoff;
      }
      if rateErr.retryAfter > delay {
        delay := rateErr.retryAfter;
      }
      return now + Jittered(delay, jitter);
    }
  }
}
