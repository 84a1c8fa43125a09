/** Runs that show what single-flight and the shared cooldown do not give. */
module FlightRuns {
  import opened Wrappers
  import opened Domain
  import opened Queue
  import opened Policy
  import opened Flights

  /** One more step of a flight that is where the step needs it. */
  lemma Fly(pool: Pool, store: Store, book: RateLimiting.Book, steps: seq<Step>, step: Step) returns (more: seq<Step>)
    requires Runs(pool, store, book, steps) && Enabled(pool, After(pool, store, book, steps), step)
    ensures more == steps + [step] && Runs(pool, store, book, more)
    ensures After(pool, store, book, more) == Next(pool, After(pool, store, book, steps), step)
  {
    Extend(pool, store, book, steps, step);
    more := steps + [step];
  }

  lemma NothingToReuse(quotes: map<nat, StoredQuote>, pair: Pair)
    requires quotes == map[]
    ensures Latest(quotes, pair).None?
  {}

  /** A flight led by an unstarted task, taken past reuse. */
  lemma FlyPastReuse(pool: Pool, store: Store, book: RateLimiting.Book, steps: seq<Step>, t: nat, now: Time)
    returns (more: seq<Step>)
    requires Runs(pool, store, book, steps) && Enabled(pool, After(pool, store, book, steps), Lead(t))
    requires After(pool, store, book, steps).store.quotes == map[]
    ensures Runs(pool, store, book, more)
    ensures var s, u := After(pool, store, book, steps), After(pool, store, book, more);
            && u.store == s.store && u.tasks == s.tasks[t := Running(|s.flights|)] && u.budget == s.budget
            && u.flights == s.flights + [Flight(pool.reqs[t].pair, t, PastReuse, Some(Sight(map[], now)))]
  {
    var f := |After(pool, store, book, steps).flights|;
    NothingToReuse(After(pool, store, book, steps).store.quotes, pool.reqs[t].pair);
    more := Fly(pool, store, book, steps, Lead(t));
    more := Fly(pool, store, book, more, LookUp(f, now, None));
  }

  /** The same, taken on to its provider call. */
  lemma FlyToCall(pool: Pool, store: Store, book: RateLimiting.Book, steps: seq<Step>, t: nat, now: Time)
    returns (more: seq<Step>)
    requires Runs(pool, store, book, steps) && Enabled(pool, After(pool, store, book, steps), Lead(t))
    requires var s := After(pool, store, book, steps);
             s.store.quotes == map[] && RateLimiting.Decide(pool.limits, s.budget.book, now).Admitted?
    ensures Runs(pool, store, book, more)
    ensures CalledOut(pool, After(pool, store, book, steps), After(pool, store, book, more), t, now)
  {
    var f := |After(pool, store, book, steps).flights|;
    more := FlyPastReuse(pool, store, book, steps, t, now);
    ClearedAndOut(pool, After(pool, store, book, more), f, now);
    more := Fly(pool, store, book, more, AskLimiter(f, now));
    more := Fly(pool, store, book, more, CallProvider(f));
  }

  /** Task t leads a new flight whose provider call, admitted at `now`, is out. */
  predicate CalledOut(pool: Pool, s: State, u: State, t: nat, now: Time)
    requires t < |s.tasks| && t < |pool.reqs|
  {
    && u.store == s.store && u.tasks == s.tasks[t := Running(|s.flights|)]
    && u.flights == s.flights + [Flight(pool.reqs[t].pair, t, Calling, Some(Sight(map[], now)))]
    && u.budget.book == RateLimiting.PrunedStep(pool.limits, s.budget.book, RateLimiting.Allow(now))
    && u.budget.calls == s.budget.calls + [|s.flights|]
    && u.budget.admissions == s.budget.admissions + [Admission(|s.flights|, now)]
  }

  /** What the last two steps of such a flight do. */
  lemma ClearedAndOut(pool: Pool, s: State, f: nat, now: Time)
    requires |s.tasks| == |pool.reqs| && Enabled(pool, s, AskLimiter(f, now))
    requires RateLimiting.Decide(pool.limits, s.budget.book, now).Admitted?
    ensures Enabled(pool, Next(pool, s, AskLimiter(f, now)), CallProvider(f))
    ensures var u := Next(pool, Next(pool, s, AskLimiter(f, now)), CallProvider(f));
            && u.store == s.store && u.tasks == s.tasks
            && u.flights == s.flights[f := s.flights[f].(stage := Calling)]
            && u.budget.book == RateLimiting.PrunedStep(pool.limits, s.budget.book, RateLimiting.Allow(now))
            && u.budget.calls == s.budget.calls + [f]
            && u.budget.admissions == s.budget.admissions + [Admission(f, now)]
  {}

  /** Two flights of different tasks, both with their calls out. */
  lemma TwoCallsOut(pool: Pool, store: Store, first: Time, second: Time) returns (steps: seq<Step>)
    requires |pool.reqs| == 2 && pool.size == 2 && pool.reqs[0].pair != pool.reqs[1].pair && store.quotes == map[]
    requires pool.limits.perMinute != 1 && pool.limits.perHour != 1 && 0 <= first <= second
    ensures Runs(pool, store, RateLimiting.EMPTY, steps)
    ensures At(After(pool, store, RateLimiting.EMPTY, steps), 0, Calling)
    ensures After(pool, store, RateLimiting.EMPTY, steps).budget.admissions
            == [Admission(0, first), Admission(1, second)]
  {
    var book := RateLimiting.EMPTY;
    RateLimiting.TwoCallsFit(pool.limits, first, second);
    BusyNone(2);
    steps := FlyToCall(pool, store, book, [], 0, first);
    BusyUpdate(Init(pool, store, book).tasks, 0, Running(0));
    steps := FlyToCall(pool, store, book, steps, 1, second);
  }

  /** A flight hears back with a quote the journal admits. */
  lemma FlyHome(pool: Pool, store: Store, book: RateLimiting.Book, steps: seq<Step>, f: nat, answer: Answer, now: Time)
    returns (more: seq<Step>, rate: Rate)
    requires Runs(pool, store, book, steps) && Enabled(pool, After(pool, store, book, steps), HearBack(f, answer, now))
    requires answer.Quote? && answer.value > 0.0 && answer.quotedAt != ZERO_TIME
    requires answer.quotedAt <= now + MAX_QUOTED_AT_SKEW
    ensures rate.staleAfter == pool.provider.staleAfter(answer.quality, answer.quotedAt)
    ensures Runs(pool, store, book, more)
    ensures var s, u := After(pool, store, book, steps), After(pool, store, book, more);
            u == s.(flights := s.flights[f := s.flights[f].(stage := Landed(Fetched(rate)))])
  {
    var s := After(pool, store, book, steps);
    rate := Hear(pool.limits, s.budget.book, pool.provider, answer, now).1.rate;
    more := Fly(pool, store, book, steps, HearBack(f, answer, now));
  }

  /** The first flight has landed with `rate`; the second task may lead. */
  ghost predicate FirstLanded(pool: Pool, store: Store, s: State, now: Time, rate: Rate)
    requires |pool.reqs| == 2
  {
    && |s.tasks| == 2 && s.tasks[1].Queued? && s.store == store && Enabled(pool, s, Lead(1))
    && s.flights == [Flight(pool.reqs[0].pair, 0, Landed(Fetched(rate)), Some(Sight(map[], now)))]
    && s.budget.book == RateLimiting.PrunedStep(pool.limits, RateLimiting.EMPTY, RateLimiting.Allow(now))
    && s.budget.calls == [0] && s.budget.admissions == [Admission(0, now)]
  }

  lemma FirstFlight(pool: Pool, store: Store, answer: Answer, now: Time) returns (steps: seq<Step>, rate: Rate)
    requires |pool.reqs| == 2 && pool.size == 2 && store.quotes == map[]
    requires RateLimiting.Decide(pool.limits, RateLimiting.EMPTY, now).Admitted?
    requires answer.Quote? && answer.value > 0.0
    requires answer.quotedAt != ZERO_TIME && answer.quotedAt <= now + MAX_QUOTED_AT_SKEW
    ensures rate.staleAfter == pool.provider.staleAfter(answer.quality, answer.quotedAt)
    ensures Runs(pool, store, RateLimiting.EMPTY, steps)
    ensures FirstLanded(pool, store, After(pool, store, RateLimiting.EMPTY, steps), now, rate)
  {
    var book := RateLimiting.EMPTY;
    BusyNone(2);
    steps := FlyToCall(pool, store, book, [], 0, now);
    BusyUpdate(Init(pool, store, book).tasks, 0, Running(0));
    steps, rate := FlyHome(pool, store, book, steps, 0, answer, now);
  }

  lemma SecondFlight(pool: Pool, store: Store, first: seq<Step>, now: Time, rate: Rate, again: Time)
    returns (steps: seq<Step>)
    requires |pool.reqs| == 2 && store.quotes == map[] && Runs(pool, store, RateLimiting.EMPTY, first)
    requires FirstLanded(pool, store, After(pool, store, RateLimiting.EMPTY, first), now, rate)
    requires var book := RateLimiting.PrunedStep(pool.limits, RateLimiting.EMPTY, RateLimiting.Allow(now));
             RateLimiting.Decide(pool.limits, book, again).Admitted?
    ensures Runs(pool, store, RateLimiting.EMPTY, steps)
    ensures var s := After(pool, store, RateLimiting.EMPTY, steps);
            && s.budget.calls == [0, 1] && s.budget.admissions == [Admission(0, now), Admission(1, again)]
            && |s.flights| == 2 && s.flights[0].pair == pool.reqs[0].pair && s.flights[1].pair == pool.reqs[1].pair
            && s.flights[0].stage == Landed(Fetched(rate)) && s.flights[1].stage == Calling
  {
    steps := FlyToCall(pool, store, RateLimiting.EMPTY, first, 1, again);
  }

  /** Single-flight does not give one provider call per freshness window: with
      any admitted rate, the provider is called again for its pair while the
      rate is fresh, because it is not in the journal yet. */
  lemma SecondCallInTheGap(pool: Pool, store: Store, answer: Answer, now: Time, again: Time)
    returns (steps: seq<Step>, rate: Rate)
    requires |pool.reqs| == 2 && pool.size == 2 && pool.reqs[0].pair == pool.reqs[1].pair && store.quotes == map[]
    requires pool.limits.perMinute != 1 && pool.limits.perHour != 1
    requires answer.Quote? && answer.value > 0.0
    requires answer.quotedAt != ZERO_TIME && answer.quotedAt <= now + MAX_QUOTED_AT_SKEW
    requires 0 <= now <= again < pool.provider.staleAfter(answer.quality, answer.quotedAt)
    ensures Runs(pool, store, RateLimiting.EMPTY, steps)
    ensures var s := After(pool, store, RateLimiting.EMPTY, steps);
            && s.budget.calls == [0, 1] && s.budget.admissions == [Admission(0, now), Admission(1, again)]
            && |s.flights| == 2 && s.flights[0].pair == s.flights[1].pair
            && s.flights[0].stage == Landed(Fetched(rate)) && again < rate.staleAfter
            && s.flights[1].stage == Calling
  {
    RateLimiting.TwoCallsFit(pool.limits, now, again);
    var first;
    first, rate := FirstFlight(pool, store, answer, now);
    steps := SecondFlight(pool, store, first, now, rate, again);
  }

  /** "Unless it was admitted before the record was made" is needed in
      SharedBudget.NoCallBeforeRetryAfter: a call of another pair is admitted
      at t + 1ns while the answer heard at t is not recorded yet. */
  lemma AdmittedWhileAnswering(pool: Pool, store: Store, err: RateError, t: Time) returns (steps: seq<Step>)
    requires |pool.reqs| == 2 && pool.size == 2 && pool.reqs[0].pair != pool.reqs[1].pair && store.quotes == map[]
    requires pool.limits.perMinute != 1 && pool.limits.perHour != 1 && 0 <= t && err.retryAfter > 1
    ensures steps != [] && Runs(pool, store, RateLimiting.EMPTY, steps)
    ensures steps[|steps| - 1] == HearBack(0, Fails(Classified(err)), t)
    ensures After(pool, store, RateLimiting.EMPTY, steps).budget.admissions == [Admission(0, t), Admission(1, t + 1)]
  {
    steps := TwoCallsOut(pool, store, t, t + 1);
    steps := Fly(pool, store, RateLimiting.EMPTY, steps, HearBack(0, Fails(Classified(err)), t));
  }
}
