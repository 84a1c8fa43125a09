/** The budget of provider calls that one process's flights share: calls and
    admissions match, and a Retry-After holds for every pair. */
module SharedBudget {
  import opened Domain
  import opened Queue
  import opened Policy
  import opened Flights

  function Times(admissions: seq<Admission>): seq<Time> {
    seq(|admissions|, i requires 0 <= i < |admissions| => admissions[i].at)
  }

  predicate HasAdmission(admissions: seq<Admission>, f: nat) {
    exists i :: 0 <= i < |admissions| && admissions[i].flight == f
  }

  /** No flight is admitted twice. */
  predicate AdmittedOnce(admissions: seq<Admission>) {
    forall i, j | 0 <= i < j < |admissions| :: admissions[i].flight != admissions[j].flight
  }

  predicate CalledOnce(calls: seq<nat>) {
    forall i, j | 0 <= i < j < |calls| :: calls[i] != calls[j]
  }

  /** Where a flight stands with the budget: not admitted before it asks,
      admitted but not out while it is cleared, both while its call is out. */
  predicate FlightPaid(flights: seq<Flight>, budget: Budget, f: nat)
    requires f < |flights|
  {
    match flights[f].stage
    case Started => !HasAdmission(budget.admissions, f) && f !in budget.calls
    case PastReuse => !HasAdmission(budget.admissions, f) && f !in budget.calls
    case Cleared => HasAdmission(budget.admissions, f) && f !in budget.calls
    case Calling => HasAdmission(budget.admissions, f) && f in budget.calls
    case Landed(_) => HasAdmission(budget.admissions, f) <==> f in budget.calls
  }

  predicate Paid(flights: seq<Flight>, budget: Budget) {
    && AdmittedOnce(budget.admissions) && CalledOnce(budget.calls)
    && (forall i | 0 <= i < |budget.admissions| :: budget.admissions[i].flight < |flights|)
    && (forall i | 0 <= i < |budget.calls| :: budget.calls[i] < |flights|)
    && (forall f | 0 <= f < |flights| :: FlightPaid(flights, budget, f))
  }

  /** The book is the limiter's own run over what it saw, and it admitted
      exactly whom the log says, when the log says. */
  predicate Kept(limits: RateLimiting.Limits, book: RateLimiting.Book, budget: Budget) {
    && budget.book == RateLimiting.PrunedRun(limits, book, budget.events)
    && Times(budget.admissions) == RateLimiting.Admissions(limits, book, budget.events)
  }

  lemma TimesAppend(admissions: seq<Admission>, a: Admission)
    ensures Times(admissions + [a]) == Times(admissions) + [a.at]
  {}

  lemma AskKeeps(limits: RateLimiting.Limits, book: RateLimiting.Book, budget: Budget, f: nat, now: Time)
    requires Kept(limits, book, budget)
    ensures Kept(limits, book, Asked(limits, budget, f, now))
  {
    RateLimiting.RunAppend(limits, book, budget.events, RateLimiting.Allow(now));
    RateLimiting.AdmissionsAppend(limits, book, budget.events, RateLimiting.Allow(now));
    TimesAppend(budget.admissions, Admission(f, now));
    assert Times(budget.admissions) + [] == Times(budget.admissions);
  }

  lemma HearKeeps(pool: Pool, book: RateLimiting.Book, budget: Budget, answer: Answer, at: Time)
    requires Kept(pool.limits, book, budget)
    ensures Kept(pool.limits, book, Heard(pool, budget, answer, at))
  {
    if CoolsUntil(answer, at).Some? {
      var e := RateLimiting.CoolDown(CoolsUntil(answer, at).value);
      RateLimiting.RunAppend(pool.limits, book, budget.events, e);
      RateLimiting.AdmissionsAppend(pool.limits, book, budget.events, e);
      assert Times(budget.admissions) + [] == Times(budget.admissions);
    }
  }

  lemma StepKeepsBook(pool: Pool, book: RateLimiting.Book, s: State, step: Step)
    requires |s.tasks| == |pool.reqs| && Enabled(pool, s, step) && Kept(pool.limits, book, s.budget)
    ensures Kept(pool.limits, book, Next(pool, s, step).budget)
  {
    match step
    case AskLimiter(f, now) => AskKeeps(pool.limits, book, s.budget, f, now);
    case HearBack(f, answer, at) => HearKeeps(pool, book, s.budget, answer, at);
    case _ =>
  }

  lemma {:induction false} AlwaysKept(pool: Pool, store: Store, book: RateLimiting.Book, steps: seq<Step>)
    requires Runs(pool, store, book, steps)
    ensures Kept(pool.limits, book, After(pool, store, book, steps).budget)
    decreases |steps|
  {
    if steps == [] {
      assert Times([]) == [];
    } else {
      AlwaysKept(pool, store, book, steps[..|steps| - 1]);
      StepKeepsBook(pool, book, After(pool, store, book, steps[..|steps| - 1]), steps[|steps| - 1]);
    }
  }

  /** A flight at f moves on while the budget changes only for f. */
  lemma OthersPaid(flights: seq<Flight>, budget: Budget, f: nat, flight: Flight, later: Budget)
    requires Paid(flights, budget) && f < |flights|
    requires forall g | 0 <= g < |flights| && g != f ::
               (HasAdmission(later.admissions, g) <==> HasAdmission(budget.admissions, g))
                   && (g in later.calls <==> g in budget.calls)
    requires AdmittedOnce(later.admissions) && CalledOnce(later.calls) && FlightPaid(flights[f := flight], later, f)
    requires forall i | 0 <= i < |later.admissions| :: later.admissions[i].flight < |flights|
    requires forall i | 0 <= i < |later.calls| :: later.calls[i] < |flights|
    ensures Paid(flights[f := flight], later)
  {
    var moved := flights[f := flight];
    forall g | 0 <= g < |moved| ensures FlightPaid(moved, later, g) { assert FlightPaid(flights, budget, g); }
  }

  lemma LeadPaid(flights: seq<Flight>, budget: Budget, flight: Flight)
    requires Paid(flights, budget) && flight.stage.Started?
    ensures Paid(flights + [flight], budget)
  {
    forall f | 0 <= f <= |flights| ensures FlightPaid(flights + [flight], budget, f) {
      if f < |flights| { assert FlightPaid(flights, budget, f); }
    }
  }

  lemma AskPaid(pool: Pool, s: State, f: nat, now: Time)
    requires |s.tasks| == |pool.reqs| && Enabled(pool, s, AskLimiter(f, now)) && Paid(s.flights, s.budget)
    ensures var u := Next(pool, s, AskLimiter(f, now)); Paid(u.flights, u.budget)
  {
    var u := Next(pool, s, AskLimiter(f, now));
    var before, later := s.budget.admissions, u.budget.admissions;
    assert FlightPaid(s.flights, s.budget, f);
    assert forall i | 0 <= i < |before| :: later[i] == before[i] && before[i].flight != f;
    if |later| > |before| {
      assert later[|before|].flight == f;
      forall g ensures HasAdmission(later, g) <==> HasAdmission(before, g) || g == f {
        if HasAdmission(before, g) { var i :| 0 <= i < |before| && before[i].flight == g; assert later[i].flight == g; }
      }
    }
    OthersPaid(s.flights, s.budget, f, u.flights[f], u.budget);
  }

  lemma CallPaid(pool: Pool, s: State, f: nat)
    requires |s.tasks| == |pool.reqs| && Enabled(pool, s, CallProvider(f)) && Paid(s.flights, s.budget)
    ensures var u := Next(pool, s, CallProvider(f)); Paid(u.flights, u.budget)
  {
    var u := Next(pool, s, CallProvider(f));
    assert FlightPaid(s.flights, s.budget, f);
    OthersPaid(s.flights, s.budget, f, u.flights[f], u.budget);
  }

  lemma {:induction false} AlwaysPaid(pool: Pool, store: Store, book: RateLimiting.Book, steps: seq<Step>)
    requires Runs(pool, store, book, steps)
    ensures var s := After(pool, store, book, steps); Paid(s.flights, s.budget)
    decreases |steps|
  {
    if steps == [] {
    } else {
      var init, step := steps[..|steps| - 1], steps[|steps| - 1];
      AlwaysPaid(pool, store, book, init);
      var s := After(pool, store, book, init);
      var u := Next(pool, s, step);
      match step
      case Lead(t) => LeadPaid(s.flights, s.budget, u.flights[|s.flights|]);
      case LookUp(f, _, _) =>
        assert FlightPaid(s.flights, s.budget, f);
        OthersPaid(s.flights, s.budget, f, u.flights[f], u.budget);
      case AskLimiter(f, now) => AskPaid(pool, s, f, now);
      case CallProvider(f) => CallPaid(pool, s, f);
      case HearBack(f, _, _) =>
        assert FlightPaid(s.flights, s.budget, f);
        OthersPaid(s.flights, s.budget, f, u.flights[f], u.budget);
      case _ =>
    }
  }

  /** The one admission of a flight. */
  predicate OnlyAdmission(admissions: seq<Admission>, f: nat, i: nat) {
    i < |admissions| && admissions[i].flight == f
    && forall j | 0 <= j < |admissions| && admissions[j].flight == f :: j == i
  }

  /** In every interleaving of flights of any pairs, provider calls and the
      limiter's admissions match one to one: every call has exactly one
      admission, its own; every admission has exactly one call, but for
      flights just about to call; and the admissions are what the limiter
      itself admits over everything it saw. */
  lemma CallsMatchAdmissions(pool: Pool, store: Store, book: RateLimiting.Book, steps: seq<Step>)
    requires Runs(pool, store, book, steps)
    ensures var s := After(pool, store, book, steps);
            var budget := s.budget;
            && CalledOnce(budget.calls)
            && (forall c | c in budget.calls :: exists i: nat :: OnlyAdmission(budget.admissions, c, i))
            && (forall i | 0 <= i < |budget.admissions| ::
                  var f := budget.admissions[i].flight;
                  f < |s.flights| && (f in budget.calls <==> s.flights[f].stage != Cleared))
            && Times(budget.admissions) == RateLimiting.Admissions(pool.limits, book, budget.events)
  {
    AlwaysKept(pool, store, book, steps);
    AlwaysPaid(pool, store, book, steps);
    var s := After(pool, store, book, steps);
    forall c | c in s.budget.calls ensures exists i: nat :: OnlyAdmission(s.budget.admissions, c, i) {
      assert FlightPaid(s.flights, s.budget, c);
      var i :| 0 <= i < |s.budget.admissions| && s.budget.admissions[i].flight == c;
      assert OnlyAdmission(s.budget.admissions, c, i);
    }
    forall i | 0 <= i < |s.budget.admissions|
      ensures var f := s.budget.admissions[i].flight;
              f < |s.flights| && (f in s.budget.calls <==> s.flights[f].stage != Cleared)
    {
      var f := s.budget.admissions[i].flight;
      assert HasAdmission(s.budget.admissions, f);
      assert FlightPaid(s.flights, s.budget, f);
    }
  }

  /** Flights of all pairs together, in any interleaving: if their readings
      reach the limiter at most d late, any perHour + 1 provider calls admitted
      in a row span at least an hour less d, and any perMinute + 1 a whole
      minute if d is at most 59 minutes; if they come in order, the calls keep
      both budgets in full. */
  lemma CallsKeepBudgets(pool: Pool, store: Store, steps: seq<Step>, start: Time, d: Duration)
    requires Runs(pool, store, RateLimiting.EMPTY, steps) && 0 <= d
    requires RateLimiting.NearlyMonotone(After(pool, store, RateLimiting.EMPTY, steps).budget.events, start, d)
    ensures var budget := After(pool, store, RateLimiting.EMPTY, steps).budget;
            var admitted := Times(budget.admissions);
            && RateLimiting.Spread(admitted, pool.limits.perHour, HOUR - d)
            && (d <= HOUR - MINUTE ==> RateLimiting.Spread(admitted, pool.limits.perMinute, MINUTE))
            && (RateLimiting.Monotone(budget.events, start) ==>
                  && RateLimiting.Spaced(admitted, pool.limits.perMinute, MINUTE)
                  && RateLimiting.Spaced(admitted, pool.limits.perHour, HOUR))
  {
    var events := After(pool, store, RateLimiting.EMPTY, steps).budget.events;
    AlwaysKept(pool, store, RateLimiting.EMPTY, steps);
    RateLimiting.LateAdmissionsSpread(pool.limits, events, start, d);
    if RateLimiting.Monotone(events, start) { RateLimiting.AdmissionsKeepBudgets(pool.limits, events, start); }
  }

  // --------------------------------------------------------- shared cooldown

  lemma {:induction false} RunsPrefix(pool: Pool, store: Store, book: RateLimiting.Book, steps: seq<Step>, k: nat)
    requires Runs(pool, store, book, steps) && k <= |steps|
    ensures Runs(pool, store, book, steps[..k])
    decreases |steps|
  {
    if k == |steps| {
      assert steps[..k] == steps;
    } else {
      RunsPrefix(pool, store, book, steps[..|steps| - 1], k);
      assert steps[..|steps| - 1][..k] == steps[..k];
    }
  }

  /** What a cooldown until `until`, recorded when the log was `before`, means later on. */
  predicate Cooled(before: Budget, later: Budget, until: Time) {
    && until <= later.book.blockedUntil
    && before.admissions <= later.admissions
    && forall i | |before.admissions| <= i < |later.admissions| :: until <= later.admissions[i].at
  }

  lemma StepCooled(pool: Pool, s: State, step: Step, before: Budget, until: Time)
    requires |s.tasks| == |pool.reqs| && Enabled(pool, s, step) && Cooled(before, s.budget, until)
    ensures Cooled(before, Next(pool, s, step).budget, until)
  {}

  lemma {:induction false} StaysCooled(pool: Pool, store: Store, book: RateLimiting.Book, steps: seq<Step>, k: nat)
    requires Runs(pool, store, book, steps) && k < |steps| && Runs(pool, store, book, steps[..k])
    requires steps[k].HearBack? && CoolsUntil(steps[k].answer, steps[k].at).Some?
    ensures Cooled(After(pool, store, book, steps[..k]).budget, After(pool, store, book, steps).budget,
                   CoolsUntil(steps[k].answer, steps[k].at).value)
    decreases |steps|
  {
    var init := steps[..|steps| - 1];
    if k == |steps| - 1 {
      assert steps[..k] == init;
    } else {
      assert init[..k] == steps[..k] && init[k] == steps[k];
      StaysCooled(pool, store, book, init, k);
      StepCooled(pool, After(pool, store, book, init), steps[|steps| - 1], After(pool, store, book, steps[..k]).budget,
                 CoolsUntil(steps[k].answer, steps[k].at).value);
    }
  }

  /** Once a provider error heard at t with Retry-After r has been recorded,
      no provider call of any pair, in any interleaving and whatever clock
      readings follow, has an admission before t + r, unless it was admitted
      before the record was made; so if those were admitted before t, no call
      has an admission in [t, t + r). */
  lemma NoCallBeforeRetryAfter(pool: Pool, store: Store, book: RateLimiting.Book, steps: seq<Step>, k: nat)
    requires Runs(pool, store, book, steps) && k < |steps|
    requires steps[k].HearBack? && CoolsUntil(steps[k].answer, steps[k].at).Some?
    ensures Runs(pool, store, book, steps[..k])
    ensures var t := steps[k].at;
            var until := t + steps[k].answer.failure.err.retryAfter;
            var early := After(pool, store, book, steps[..k]).budget.admissions;
            var budget := After(pool, store, book, steps).budget;
            && early <= budget.admissions
            && (forall c | c in budget.calls ::
                  (exists i: nat :: OnlyAdmission(budget.admissions, c, i)
                      && (i < |early| || until <= budget.admissions[i].at)))
            && ((forall i | 0 <= i < |early| :: early[i].at < t) ==>
                  forall i | 0 <= i < |budget.admissions| :: !(t <= budget.admissions[i].at < until))
  {
    RunsPrefix(pool, store, book, steps, k);
    StaysCooled(pool, store, book, steps, k);
    CallsMatchAdmissions(pool, store, book, steps);
  }
}
