/** One worker's decisions on values: reuse or fetch, what to do with a
    failure, and how the result is recorded. */
module Policy {
  import opened Wrappers
  import opened Domain
  import opened Queue
  import opened Backoff
  import RateLimiting

  datatype Config = Config(baseBackoff: Duration, maxBackoff: Duration, maxAttempts: int, maxLifetime: Duration)

  /** An error is classified when it carries a RateError. */
  datatype Failure = Classified(err: RateError) | Unclassified(message: string)

  datatype Decision =
    | Propagate
    | Record(code: string, message: string, retryable: bool, nextAttemptAt: Time)

  const ATTEMPTS_EXHAUSTED := "attempts_exhausted"

  function Digits(n: nat): string {
    if n < 10 then ["0123456789"[n]] else Digits(n / 10) + ["0123456789"[n % 10]]
  }

  function Decimal(n: int): string {
    if n < 0 then "-" + Digits(-n) else Digits(n)
  }

  /** Neither the attempts nor the age budget is spent. */
  predicate BudgetLeft(cfg: Config, req: Request, now: Time) {
    req.attempts < cfg.maxAttempts && now - req.createdAt < cfg.maxLifetime
  }

  function Decide(cfg: Config, req: Request, failure: Failure, now: Time, jitter: Jitter): Decision {
    if failure.Unclassified? && BudgetLeft(cfg, req, now) then Propagate
    else
      var err := match failure
                 case Classified(err) => err
                 case Unclassified(message) => RateError(Internal, message, false, 0, "");
      var next := NextAttemptAt(cfg.baseBackoff, cfg.maxBackoff, err.retryAfter, req.attempts, now, jitter);
      if err.retryable && !BudgetLeft(cfg, req, now) then
        Record(ATTEMPTS_EXHAUSTED, "giving up after " + Decimal(req.attempts) + " attempts: " + err.Text(), false, next)
      else
        Record(err.code.Wire(), err.Text(), err.retryable, next)
  }

  /** The codes a worker can write. */
  predicate WorkerCode(code: string) {
    code == ATTEMPTS_EXHAUSTED || exists c: ErrorCode :: code == c.Wire()
  }

  /** The two budgets, and all a failure can come to. An unclassified error is
      returned while attempts and age last, and becomes a permanent internal
      error when they do not; a retryable one is deferred under its own code
      and text while they last, and exhausts the row when they do not; a
      permanent one fails the row at once. */
  lemma DecisionIs(cfg: Config, req: Request, failure: Failure, now: Time, jitter: Jitter)
    ensures var d := Decide(cfg, req, failure, now, jitter);
            var lasting := req.attempts < cfg.maxAttempts && now - req.createdAt < cfg.maxLifetime;
            && (d.Propagate? <==> failure.Unclassified? && lasting)
            && (failure.Unclassified? && !lasting ==>
                  d.Record? && !d.retryable && d.code == "internal_error"
                  && d.message == "internal_error error: " + failure.message)
            && (failure.Classified? && failure.err.retryable && lasting ==>
                  d.Record? && d.retryable && d.code == failure.err.code.Wire() && d.message == failure.err.Text())
            && (failure.Classified? && failure.err.retryable && !lasting ==>
                  d.Record? && !d.retryable && d.code == "attempts_exhausted"
                  && d.message == "giving up after " + Decimal(req.attempts) + " attempts: " + failure.err.Text())
            && (failure.Classified? && !failure.err.retryable ==>
                  d.Record? && !d.retryable && d.code == failure.err.code.Wire() && d.message == failure.err.Text())
  {
    if failure.Unclassified? {
      assert RateError(Internal, failure.message, false, 0, "").Text()
          == "internal_error error: " + failure.message + "";
    }
  }

  /** The text names the code, and the upstream's own code when it gave one. */
  lemma TextIs(err: RateError)
    ensures err.providerCode == "" ==> err.Text() == err.code.Wire() + " error: " + err.message
    ensures err.providerCode != "" ==>
              err.Text() == err.code.Wire() + " error: " + err.message + " (upstream code: " + err.providerCode + ")"
  {
    var head := err.code.Wire() + " error: " + err.message;
    assert head + "" == head;
    assert head + (" (upstream code: " + err.providerCode + ")") == head + " (upstream code: " + err.providerCode + ")";
  }

  /** The number a run of digits stands for. */
  function Reads(digits: string): int {
    if digits == "" then 0
    else 10 * Reads(digits[..|digits| - 1]) + (digits[|digits| - 1] as int - '0' as int)
  }

  /** The count in the message reads back as the attempts. */
  lemma {:induction false} DigitsRead(n: nat)
    ensures Reads(Digits(n)) == n && forall i | 0 <= i < |Digits(n)| :: '0' <= Digits(n)[i] <= '9'
  {
    var last := "0123456789"[n % 10];
    assert last as int - '0' as int == n % 10;
    if n < 10 {
      assert Digits(n)[..0] == "";
    } else {
      DigitsRead(n / 10);
      assert Digits(n)[..|Digits(n)| - 1] == Digits(n / 10);
    }
  }

  /** A row comes back to the queue, by retry or by the reaper, exactly while
      both budgets last and the error is not a permanent one. */
  lemma ComesBackIff(cfg: Config, req: Request, failure: Failure, now: Time, jitter: Jitter)
    ensures var d := Decide(cfg, req, failure, now, jitter);
            && ((d.Propagate? || d.retryable)
                <==> BudgetLeft(cfg, req, now) && (failure.Classified? ==> failure.err.retryable))
            && (d.Record? ==> WorkerCode(d.code))
            && (d.Record? && d.retryable ==> failure.Classified?)
  {}

  /** When a row comes back by retry, it does so between 3/4 and 5/4 of the
      longer of the exact capped exponential and the upstream's Retry-After,
      for every factor and platform, if and only if that is at most 4/5 of 2^63. */
  lemma DeferralBoundsIff(cfg: Config, req: Request, err: RateError, now: Time, odd: nat, e: nat)
    requires ValidBackoff(cfg.baseBackoff, cfg.maxBackoff)
    requires cfg.baseBackoff == odd * Pow2(e) && odd * cfg.maxBackoff < TWO_63
    requires err.retryable && req.attempts < cfg.maxAttempts && now - req.createdAt < cfg.maxLifetime
    ensures var delay := ExactDelay(cfg.baseBackoff, cfg.maxBackoff, req.attempts);
            var wait := if err.retryAfter > delay then err.retryAfter else delay;
            (forall jitter | IsJitter(jitter) ::
               var d := Decide(cfg, req, Classified(err), now, jitter);
               d.Record? && d.retryable && now + (3 * wait) / 4 <= d.nextAttemptAt <= now + (5 * wait) / 4)
            <==> wait <= LONGEST_WAIT
  {
    NeverWrapsBack(cfg.baseBackoff, cfg.maxBackoff, req.attempts, odd, e);
    NextAttemptBoundsIff(cfg.baseBackoff, cfg.maxBackoff, err.retryAfter, req.attempts, now);
    forall jitter
      ensures Decide(cfg, req, Classified(err), now, jitter)
              == Record(err.code.Wire(), err.Text(), true,
                        NextAttemptAt(cfg.baseBackoff, cfg.maxBackoff, err.retryAfter, req.attempts, now, jitter)) {}
  }

  /** A row fails as attempts_exhausted exactly when a retryable error met a
      spent budget; an unclassified error that met one fails as internal, and
      a permanent error under its own code at once. */
  lemma FailsAs(cfg: Config, req: Request, failure: Failure, now: Time, jitter: Jitter)
    requires Decide(cfg, req, failure, now, jitter).Record? && !Decide(cfg, req, failure, now, jitter).retryable
    ensures var code := Decide(cfg, req, failure, now, jitter).code;
            && (code == ATTEMPTS_EXHAUSTED <==> failure.Classified? && failure.err.retryable)
            && (code == ATTEMPTS_EXHAUSTED || failure.Unclassified? ==> !BudgetLeft(cfg, req, now))
            && (failure.Unclassified? ==> code == Internal.Wire())
            && (failure.Classified? && !failure.err.retryable ==> code == failure.err.code.Wire())
  {
    if failure.Classified? { NotExhausted(failure.err.code); }
  }

  lemma NotExhausted(c: ErrorCode)
    ensures c.Wire() != ATTEMPTS_EXHAUSTED
  {
    assert ATTEMPTS_EXHAUSTED[0] == 'a' && ATTEMPTS_EXHAUSTED[1] == 't';
    match c
    case Auth => assert c.Wire()[1] == 'u';
    case _ => assert c.Wire()[0] != 'a';
  }

  // ---------------------------------------------------------- reuse or fetch

  datatype Answer =
    | Quote(value: real, derived: bool, quality: string, quotedAt: Time)
    | Fails(failure: Failure)
    | Panics

  datatype Provider = Provider(name: string, indicative: bool, staleAfter: (string, Time) -> Time)

  datatype Resolution = Reused(quoteId: nat) | Fetched(rate: Rate) | Failing(failure: Failure) | Panicked

  /** First the journal: reuse its latest quote while it is fresh, give up on
      a failed read, and otherwise go on. */
  function Look(quotes: map<nat, StoredQuote>, latest: Option<nat>, readAt: Time,
          readFault: Option<string>): Option<Resolution>
    requires latest.Some? ==> latest.value in quotes
  {
    if readFault.Some? then Some(Failing(Unclassified(readFault.value)))
    else if latest.Some? && readAt < quotes[latest.value].rate.staleAfter then Some(Reused(latest.value))
    else None
  }

  /** Then the limiter: a refusal is a retryable error carrying its hint. */
  function Ask(limits: RateLimiting.Limits, book: RateLimiting.Book, now: Time): (RateLimiting.Book,
          Option<Resolution>) {
    (RateLimiting.PrunedStep(limits, book, RateLimiting.Allow(now)),
     match RateLimiting.Decide(limits, book, now)
     case Refused(r) => Some(Failing(Classified(RateError(RateLimited, "outbound rate budget exhausted", true, r, ""))))
     case Admitted => None)
  }

  /** Then the provider: its Retry-After cools every pair down, its quote has
      to meet the journal's admission rule. */
  function Hear(limits: RateLimiting.Limits, book: RateLimiting.Book, provider: Provider, answer: Answer,
          at: Time): (RateLimiting.Book, Resolution) {
    match answer
    case Panics => (book, Panicked)
    case Fails(failure) =>
      (if failure.Classified? && failure.err.retryAfter > 0
       then RateLimiting.PrunedStep(limits, book, RateLimiting.CoolDown(at + failure.err.retryAfter))
       else book,
       Failing(failure))
    case Quote(value, derived, quality, quotedAt) =>
      match NewCurrencyRate(value, derived, quality, provider.name, provider.indicative, quotedAt, at,
          provider.staleAfter(quality, quotedAt))
      case Ok(rate) => (book, Fetched(rate))
      case Err(fault) => (book, Failing(Classified(RateError(MalformedResponse, FaultText(fault), false, 0, ""))))
  }

  function FaultText(fault: RateFault): string {
    match fault
    case NotPositive => "rate must be positive"
    case ZeroQuotedAt => "quoted_at must not be zero"
    case QuotedTooFarAhead => "quoted_at is too far ahead of fetched_at"
  }

  /** What the outside world does during one Process: clock readings, faults of
      storage, the provider's answer and the jitter drawn. */
  datatype Env = Env(readAt: Time, readFault: Option<string>, allowAt: Time, answeredAt: Time, now: Time,
      answer: Answer, jitter: Jitter, written: bool)

  /** The three in a row, with nobody else about: the new limiter book, what
      the callers get, and whether the provider was called. */
  function Fetch(quotes: map<nat, StoredQuote>, latest: Option<nat>, limits: RateLimiting.Limits,
          book: RateLimiting.Book,
                 provider: Provider, env: Env): (RateLimiting.Book, Resolution, bool)
    requires latest.Some? ==> latest.value in quotes
  {
    match Look(quotes, latest, env.readAt, env.readFault)
    case Some(resolution) => (book, resolution, false)
    case None => FetchFresh(limits, book, provider, env)
  }

  function FetchFresh(limits: RateLimiting.Limits, book: RateLimiting.Book, provider: Provider,
          env: Env): (RateLimiting.Book, Resolution, bool) {
    var (asked, refused) := Ask(limits, book, env.allowAt);
    if refused.Some? then (asked, refused.value, false)
    else
      var (heard, resolution) := Hear(limits, asked, provider, env.answer, env.answeredAt);
      (heard, resolution, true)
  }

  /** When the provider is called: the read did not fail, the latest quote of
      the pair is missing or stale, no cooldown is on, and both windows have
      room. The call is then in the new book; without one nothing is added to
      it. A read fault stays unclassified, a refusal is retryable, rate_limited
      and carries the limiter's hint. */
  lemma FetchCallsIff(quotes: map<nat, StoredQuote>, pair: Pair, limits: RateLimiting.Limits, book: RateLimiting.Book,
                      provider: Provider, env: Env, last: Time)
    requires RateLimiting.Ascending(book.calls, last)
    ensures var (after, resolution, called) := Fetch(quotes, Latest(quotes, pair), limits, book, provider, env);
            var reusable := exists q: nat :: IsLatest(quotes, pair, q) && env.readAt < quotes[q].rate.staleAfter;
            var room := && book.blockedUntil <= env.allowAt
                        && RateLimiting.Room(book.calls, limits.perHour, HOUR, env.allowAt)
                        && RateLimiting.Room(book.calls, limits.perMinute, MINUTE, env.allowAt);
            && (called <==> env.readFault == None && !reusable && room)
            && (called ==> after.calls == RateLimiting.After(book.calls, env.allowAt - HOUR) + [env.allowAt])
            && (env.readFault != None ==> resolution == Failing(Unclassified(env.readFault.value)) && after == book)
            && (env.readFault == None && reusable ==>
                  && resolution.Reused? && IsLatest(quotes, pair, resolution.quoteId)
                  && env.readAt < quotes[resolution.quoteId].rate.staleAfter && after == book)
            && (env.readFault == None && !reusable && !room ==>
                  && resolution.Failing? && resolution.failure.Classified? && resolution.failure.err.code == RateLimited
                  && resolution.failure.err.retryable
                  && RateLimiting.Decide(limits, book, env.allowAt)
                       == RateLimiting.Refused(resolution.failure.err.retryAfter)
                  && |after.calls| <= |book.calls|)
  {
    RateLimiting.AdmissionExact(limits, book, env.allowAt, last);
    var latest := Latest(quotes, pair);
    if latest.Some? { LatestIs(quotes, pair, latest.value); }
    if q: nat :| IsLatest(quotes, pair, q) { LatestIs(quotes, pair, q); }
    if book.blockedUntil <= env.allowAt { RateLimiting.PrunedAllow(limits, book, env.allowAt); }
  }

  /** What an answer becomes. A failure is passed on as it came; a quote is a
      rate of this provider fetched now if it is positive, dated, and dated at
      most five minutes ahead, and else a permanent malformed_response; and the
      limiter is only touched by a positive Retry-After. */
  lemma AnswerBecomes(limits: RateLimiting.Limits, book: RateLimiting.Book, provider: Provider, answer: Answer,
          at: Time)
    ensures var (after, resolution) := Hear(limits, book, provider, answer, at);
            && after.calls == book.calls
            && (answer.Panics? ==> resolution == Panicked && after == book)
            && (answer.Fails? ==> resolution == Failing(answer.failure))
            && (answer.Fails? && answer.failure.Classified? && answer.failure.err.retryAfter > 0 ==>
                  after.blockedUntil >= book.blockedUntil && after.blockedUntil >= at + answer.failure.err.retryAfter
                  && (after.blockedUntil == book.blockedUntil
                       || after.blockedUntil == at + answer.failure.err.retryAfter))
            && (answer.Fails? && (answer.failure.Classified? ==> answer.failure.err.retryAfter <= 0) ==> after == book)
            && (answer.Quote? ==> after == book)
            && (answer.Quote? && answer.value > 0.0 && answer.quotedAt != 0
                 && answer.quotedAt <= at + 300_000_000_000 ==>
                  && resolution.Fetched?
                  && (var rate := resolution.rate;
                      && rate.value == answer.value && rate.derived == answer.derived && rate.quality == answer.quality
                      && rate.quotedAt == answer.quotedAt && rate.fetchedAt == at && rate.provider == provider.name
                      && rate.indicative == provider.indicative
                      && rate.staleAfter == provider.staleAfter(answer.quality, answer.quotedAt)))
            && (answer.Quote?
                 && (answer.value <= 0.0 || answer.quotedAt == 0 || answer.quotedAt > at + 300_000_000_000) ==>
                  && resolution.Failing? && resolution.failure.Classified?
                  && resolution.failure.err.code == MalformedResponse && !resolution.failure.err.retryable
                  && resolution.failure.err.retryAfter == 0)
  {}

  /** A permanent error only comes out of a provider call: it is the
      provider's own, or its rate would not be admitted to the journal; and a
      quote becomes a fetched rate exactly when it is admitted. */
  lemma PermanentIsTheProviders(quotes: map<nat, StoredQuote>, latest: Option<nat>, limits: RateLimiting.Limits,
          book: RateLimiting.Book,
                             provider: Provider, env: Env)
    requires latest.Some? ==> latest.value in quotes
    ensures var (after, resolution, called) := Fetch(quotes, latest, limits, book, provider, env);
            && (resolution.Failing? && resolution.failure.Classified? && !resolution.failure.err.retryable ==>
                  called && (if env.answer.Fails? then env.answer.failure == resolution.failure
                             else env.answer.Quote? && resolution.failure.err.code == MalformedResponse))
            && (called && env.answer.Quote? ==>
                  var rate := Rate(env.answer.value, env.answer.derived, env.answer.quality, env.answer.quotedAt,
                      provider.name,
                                   provider.indicative, env.answeredAt,
                                       provider.staleAfter(env.answer.quality, env.answer.quotedAt));
                  if Admitted(rate) then resolution == Fetched(rate) else resolution.Failing?)
  {}

  // ------------------------------------------------------------ tame failures

  /** No Retry-After of more than 4/5 of 2^63. */
  predicate Tame(failure: Failure) {
    failure.Classified? ==> failure.err.retryAfter <= LONGEST_WAIT
  }

  predicate TameAnswer(answer: Answer) {
    answer.Fails? ==> Tame(answer.failure)
  }

  predicate TameResolution(resolution: Resolution) {
    resolution.Failing? ==> Tame(resolution.failure)
  }

  /** Nothing in the book is ahead of `now` by more than that. */
  predicate Calm(book: RateLimiting.Book, now: Time) {
    && book.blockedUntil <= now + LONGEST_WAIT
    && forall x | x in book.calls :: x <= now
  }

  /** The limiter's own refusals are tame: at `now` a calm book's hint is, and
      the book stays calm. */
  lemma AskIsTame(limits: RateLimiting.Limits, book: RateLimiting.Book, now: Time)
    requires Calm(book, now)
    ensures Calm(Ask(limits, book, now).0, now)
    ensures Ask(limits, book, now).1.Some? ==> TameResolution(Ask(limits, book, now).1.value)
  {
    var inHour, inMinute := RateLimiting.After(book.calls, now - HOUR), RateLimiting.After(book.calls, now - MINUTE);
    RateLimiting.AfterIn(book.calls, now - HOUR);
    RateLimiting.AfterIn(book.calls, now - MINUTE);
    assert |inHour| > 0 ==> inHour[0] in inHour;
    assert |inMinute| > 0 ==> inMinute[0] in inMinute;
    if book.blockedUntil <= now { RateLimiting.PrunedAllow(limits, book, now); }
  }

  /** So are the provider's answers, if their Retry-After is. */
  lemma HearIsTame(limits: RateLimiting.Limits, book: RateLimiting.Book, provider: Provider, answer: Answer, now: Time)
    requires Calm(book, now) && TameAnswer(answer)
    ensures Calm(Hear(limits, book, provider, answer, now).0, now)
    ensures TameResolution(Hear(limits, book, provider, answer, now).1)
  {}

  lemma FetchIsTame(quotes: map<nat, StoredQuote>, latest: Option<nat>, limits: RateLimiting.Limits,
          book: RateLimiting.Book,
                    provider: Provider, env: Env, now: Time)
    requires latest.Some? ==> latest.value in quotes
    requires Calm(book, now) && env.allowAt == env.answeredAt == now && TameAnswer(env.answer)
    ensures var (after, resolution, _) := Fetch(quotes, latest, limits, book, provider, env);
            Calm(after, now) && TameResolution(resolution)
  {
    AskIsTame(limits, book, now);
    HearIsTame(limits, Ask(limits, book, now).0, provider, env.answer, now);
  }

  // --------------------------------------------------------------- recording

  datatype Report = Recorded(outcome: Outcome) | Returned | Lost

  /** The repository operation a resolved request leads to, if any. */
  function Completion(cfg: Config, req: Request, resolution: Resolution, now: Time, jitter: Jitter): Option<Op> {
    match resolution
    case Panicked => None
    case Reused(quoteId) => Some(Reuse(req.id, quoteId, now))
    case Fetched(rate) => Some(Success(req.id, req.pair, rate, now))
    case Failing(failure) =>
      match Decide(cfg, req, failure, now, jitter)
      case Propagate => None
      case Record(code, message, retryable, next) => Some(Failure(req.id, code, message, retryable, next, now))
  }

  /** What Process does to the store once its request is resolved. */
  ghost function Settle(cfg: Config, s: Store, req: Request, resolution: Resolution, env: Env): (Store, Report) {
    match Completion(cfg, req, resolution, env.now, env.jitter)
    case None => (s, if resolution.Panicked? then Lost else Returned)
    case Some(op) => if env.written then (Apply(s, op).0, Recorded(Apply(s, op).1)) else (s, Lost)
  }

  /** A panic and a failed write record nothing; a returned error neither; all
      else is one operation on the request's own row, at the instant read after
      the flight: a reuse, a success with the fetched rate under the request's
      pair, or the decided failure. */
  lemma SettlesAs(cfg: Config, s: Store, req: Request, resolution: Resolution, env: Env)
    ensures var (t, report) := Settle(cfg, s, req, resolution, env);
            && (resolution.Panicked? ==> t == s && report == Lost)
            && (resolution.Reused? ==>
                  if env.written then (t, report) == RecordedBy(CompleteSuccessReuse(s, req.id, resolution.quoteId,
                      env.now))
                  else t == s && report == Lost)
            && (resolution.Fetched? ==>
                  if env.written then (t, report) == RecordedBy(CompleteSuccess(s, req.id, req.pair, resolution.rate,
                      env.now))
                  else t == s && report == Lost)
            && (resolution.Failing? ==>
                  match Decide(cfg, req, resolution.failure, env.now, env.jitter)
                  case Propagate => t == s && report == Returned
                  case Record(code, message, retryable, next) =>
                    if env.written
                    then (t, report) == RecordedBy(CompleteFailure(s, req.id, code, message, retryable, next, env.now))
                    else t == s && report == Lost)
  {}

  function RecordedBy(result: (Store, Outcome)): (Store, Report) {
    (result.0, Recorded(result.1))
  }

  /** A resolution that may be recorded for a row of this pair. */
  predicate Sound(s: Store, pair: Pair, resolution: Resolution) {
    match resolution
    case Reused(q) => q in s.quotes && s.quotes[q].pair == pair
    case Fetched(rate) => Admitted(rate)
    case _ => true
  }

  /** Whatever a flight ends with may be recorded for a row of its pair: the
      reuse was read under that pair, the rate meets the admission rule. */
  lemma FetchIsSound(s: Store, pair: Pair, readAt: Time, readFault: Option<string>, limits: RateLimiting.Limits,
          book: RateLimiting.Book,
                     now: Time, provider: Provider, answer: Answer, at: Time)
    ensures var looked := Look(s.quotes, Latest(s.quotes, pair), readAt, readFault);
            looked.Some? ==> Sound(s, pair, looked.value)
    ensures Ask(limits, book, now).1.Some? ==> Sound(s, pair, Ask(limits, book, now).1.value)
    ensures Sound(s, pair, Hear(limits, book, provider, answer, at).1)
  {}

  /** Whatever a worker records is a completion the journal's invariant covers. */
  lemma CompletionIsFromWorker(cfg: Config, s: Store, req: Request, resolution: Resolution, now: Time, jitter: Jitter)
    requires Sound(s, req.pair, resolution)
    requires req.id in s.rows ==> s.rows[req.id].req.pair == req.pair
    ensures var op := Completion(cfg, req, resolution, now, jitter);
            op.Some? ==> FromWorker(s, op.value) && Possible(s, op.value)
  {}

  // ------------------------------------------------------------ reuse is fresh

  const DAILY_TTL: Duration := 24 * HOUR

  /** The exchangerate.dev adapter's freshness rule. */
  function StaleAfter(quoteTTL: Duration, quality: string, quotedAt: Time): Time {
    if quality == "live" then quotedAt + 60 * SECOND
    else if quality == "daily" then quotedAt + DAILY_TTL
    else quotedAt + quoteTTL
  }

  /** The rate follows that rule. */
  predicate Ruled(rate: Rate, quoteTTL: Duration) {
    rate.staleAfter == StaleAfter(quoteTTL, rate.quality, rate.quotedAt)
  }

  predicate OpRuled(op: Op, quoteTTL: Duration) {
    op.Success? ==> Ruled(op.rate, quoteTTL)
  }

  predicate JournalRuled(s: Store, quoteTTL: Duration) {
    forall q | q in s.quotes :: Ruled(s.quotes[q].rate, quoteTTL)
  }

  /** Over every run whose completions follow the rule, so does the journal. */
  lemma {:induction false} RuleHolds(s: Store, ops: seq<Op>, quoteTTL: Duration)
    requires Consistent(s) && WorkerRun(s, ops) && JournalRuled(s, quoteTTL)
    requires forall i | 0 <= i < |ops| :: OpRuled(ops[i], quoteTTL)
    ensures JournalRuled(Exec(s, ops), quoteTTL)
    decreases |ops|
  {
    if ops == [] {
    } else {
      assert OpRuled(ops[0], quoteTTL);
      StepKeeps(s, ops[0]);
      if ops[0].Success? { PostIs(s, ops[0].pair, ops[0].rate); }
      RuleHolds(Apply(s, ops[0]).0, ops[1..], quoteTTL);
    }
  }

  /** Any reuse, after any run of workers whose provider follows the adapter's
      rule, is of a price read less than 5 minutes plus its TTL before: one
      minute for a live quote, a day for a daily one, quoteTTL for any other. */
  lemma ReuseIsFresh(ops: seq<Op>, quoteTTL: Duration, pair: Pair, limits: RateLimiting.Limits, book: RateLimiting.Book,
                     provider: Provider, env: Env)
    requires WorkerRun(EMPTY, ops)
    requires forall i | 0 <= i < |ops| && ops[i].Success? ::
               ops[i].rate.staleAfter == StaleAfter(quoteTTL, ops[i].rate.quality, ops[i].rate.quotedAt)
    ensures var quotes := Exec(EMPTY, ops).quotes;
            var resolution := Fetch(quotes, Latest(quotes, pair), limits, book, provider, env).1;
            resolution.Reused? ==>
              && resolution.quoteId in quotes && quotes[resolution.quoteId].pair == pair
              && (var rate := quotes[resolution.quoteId].rate;
                  && (rate.quality == "live" ==> rate.fetchedAt > env.readAt - (5 + 1) * MINUTE)
                  && (rate.quality == "daily" ==> rate.fetchedAt > env.readAt - (5 * MINUTE + 24 * HOUR))
                  && (rate.quality != "live" && rate.quality != "daily" ==>
                        rate.fetchedAt > env.readAt - (5 * MINUTE + quoteTTL)))
  {
    forall i | 0 <= i < |ops| ensures OpRuled(ops[i], quoteTTL) {}
    RuleHolds(EMPTY, ops, quoteTTL);
    RunKeeps(EMPTY, ops);
    var quotes := Exec(EMPTY, ops).quotes;
    var latest := Latest(quotes, pair);
    if latest.Some? && Look(quotes, latest, env.readAt, env.readFault) == Some(Reused(latest.value)) {
      RuledIsFresh(quotes[latest.value].rate, quoteTTL, env.readAt);
    }
    FetchReuses(quotes, latest, limits, book, provider, env);
  }

  /** A flight reuses exactly what its look found. */
  lemma FetchReuses(quotes: map<nat, StoredQuote>, latest: Option<nat>, limits: RateLimiting.Limits,
          book: RateLimiting.Book,
                    provider: Provider, env: Env)
    requires latest.Some? ==> latest.value in quotes
    ensures var resolution := Fetch(quotes, latest, limits, book, provider, env).1;
            resolution.Reused? ==>
              latest == Some(resolution.quoteId) && Look(quotes, latest, env.readAt, env.readFault) == Some(resolution)
  {}

  lemma RuledIsFresh(rate: Rate, quoteTTL: Duration, readAt: Time)
    requires Admitted(rate) && Ruled(rate, quoteTTL) && readAt < rate.staleAfter
    ensures rate.quality == "live" ==> rate.fetchedAt > readAt - (5 + 1) * MINUTE
    ensures rate.quality == "daily" ==> rate.fetchedAt > readAt - (5 * MINUTE + 24 * HOUR)
    ensures rate.quality != "live" && rate.quality != "daily" ==> rate.fetchedAt > readAt - (5 * MINUTE + quoteTTL)
  {}

  /** The rule itself: a minute, a day, or the configured time. */
  lemma StaleAfterIs(quoteTTL: Duration, quality: string, quotedAt: Time)
    ensures StaleAfter(quoteTTL, "live", quotedAt) == quotedAt + 60_000_000_000
    ensures StaleAfter(quoteTTL, "daily", quotedAt) == quotedAt + 24 * 60 * 60_000_000_000
    ensures quality != "live" && quality != "daily" ==> StaleAfter(quoteTTL, quality, quotedAt) == quotedAt + quoteTTL
  {}
}
