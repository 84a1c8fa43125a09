/** One process as interleaved steps: a bounded pool of tasks, one flight at a
    time per pair shared by its callers, one limiter shared by all flights,
    and everyone else working on the same store. */
module Flights {
  import opened Wrappers
  import opened Domain
  import opened Queue
  import opened Policy

  /** The requests the process ever works on, one batch or all of its passes,
      the pool's size, and what the process is made of. A task may start at any
      time; claims of its row between passes are among the steps of others. */
  datatype Pool = Pool(reqs: seq<Request>, size: nat, worker: Config, provider: Provider, limits: RateLimiting.Limits)

  /** A running task holds a pool slot; a finished one remembers its flight and
      the quote it recorded, 0 for none. */
  datatype Task = Queued | Running(flight: nat) | Finished(flight: nat, quoteId: nat)

  /** How far a flight is: started, past reuse, admitted by the limiter, with
      its provider call out, and landed. */
  datatype Stage = Started | PastReuse | Cleared | Calling | Landed(resolution: Resolution)

  /** History: the journal a flight went past, and the clock reading it used. */
  datatype Sight = Sight(quotes: map<nat, StoredQuote>, readAt: Time)

  datatype Flight = Flight(pair: Pair, leader: nat, stage: Stage, sight: Option<Sight>)

  datatype Admission = Admission(flight: nat, at: Time)

  /** The limiter's book, and the history of what it saw, whom it admitted and
      which flights called the provider, in order. */
  datatype Budget = Budget(book: RateLimiting.Book, events: seq<RateLimiting.Event>, admissions: seq<Admission>,
      calls: seq<nat>)

  /** `posted` is history: the journal rows this process added, each with its flight. */
  datatype State = State(store: Store, tasks: seq<Task>, flights: seq<Flight>, budget: Budget, posted: map<nat, nat>)

  datatype Step =
    | Join(t: nat, f: nat)
    | Lead(t: nat)
    | LookUp(f: nat, readAt: Time, readFault: Option<string>)
    | AskLimiter(f: nat, now: Time)
    | CallProvider(f: nat)
    | HearBack(f: nat, answer: Answer, at: Time)
    | Finish(t: nat, env: Env)
    | Others(op: Op)

  function Init(pool: Pool, store: Store, book: RateLimiting.Book): State {
    State(store, seq(|pool.reqs|, _ => Queued), [], Budget(book, [], [], []), map[])
  }

  function Busy(tasks: seq<Task>): nat {
    if tasks == [] then 0 else Busy(tasks[..|tasks| - 1]) + if tasks[|tasks| - 1].Running? then 1 else 0
  }

  predicate Flying(flights: seq<Flight>, f: nat) {
    f < |flights| && !flights[f].stage.Landed?
  }

  /** The flight is at this stage and its leader runs, so it can go on. */
  predicate At(s: State, f: nat, stage: Stage) {
    f < |s.flights| && s.flights[f].stage == stage && s.flights[f].leader < |s.tasks|
        && s.tasks[s.flights[f].leader] == Running(f)
  }

  /** A task starts when it gets a slot: it joins its pair's flight if one is
      in the air, and otherwise leads a new one. The leader's own goroutine
      flies it; when it has landed its callers record, each for its own row.
      Every clock reading is the outside world's, in any order. */
  ghost predicate Enabled(pool: Pool, s: State, step: Step)
    requires |s.tasks| == |pool.reqs|
  {
    match step
    case Join(t, f) =>
      t < |s.tasks| && s.tasks[t].Queued? && Busy(s.tasks) < pool.size && Flying(s.flights, f)
          && s.flights[f].pair == pool.reqs[t].pair
    case Lead(t) =>
      && t < |s.tasks| && s.tasks[t].Queued? && Busy(s.tasks) < pool.size
      && forall f | 0 <= f < |s.flights| && Flying(s.flights, f) :: s.flights[f].pair != pool.reqs[t].pair
    case LookUp(f, _, _) => At(s, f, Started)
    case AskLimiter(f, _) => At(s, f, PastReuse)
    case CallProvider(f) => At(s, f, Cleared)
    case HearBack(f, _, _) => At(s, f, Calling)
    case Finish(t, env) => t < |s.tasks| && s.tasks[t].Running? && Landing(s.flights, s.tasks[t].flight)
    case Others(op) => Possible(s.store, op) && FromWorker(s.store, op)
  }

  predicate Landing(flights: seq<Flight>, f: nat) {
    f < |flights| && flights[f].stage.Landed?
  }

  ghost function Settled(pool: Pool, s: State, t: nat, env: Env): (Store, Report)
    requires t < |s.tasks| && |s.tasks| == |pool.reqs| && s.tasks[t].Running? && Landing(s.flights, s.tasks[t].flight)
  {
    Settle(pool.worker, s.store, pool.reqs[t], s.flights[s.tasks[t].flight].stage.resolution, env)
  }

  /** The quote a settled task has put its row on, 0 for none. */
  ghost function QuoteRecorded(pool: Pool, s: State, t: nat, env: Env): nat
    requires t < |s.tasks| && |s.tasks| == |pool.reqs| && s.tasks[t].Running? && Landing(s.flights, s.tasks[t].flight)
  {
    var (store, report) := Settled(pool, s, t, env);
    var id := pool.reqs[t].id;
    if !s.flights[s.tasks[t].flight].stage.resolution.Failing? && report == Policy.Recorded(Done) && id in store.rows
        then store.rows[id].quoteId
    else 0
  }

  /** A flight ends with a resolution, or goes on. */
  function Onward(end: Option<Resolution>, next: Stage): Stage {
    if end.Some? then Landed(end.value) else next
  }

  ghost function LookedUp(s: State, f: nat, readAt: Time, readFault: Option<string>): Flight
    requires f < |s.flights|
  {
    var flight := s.flights[f];
    var end := Look(s.store.quotes, Latest(s.store.quotes, flight.pair), readAt, readFault);
    flight.(stage := Onward(end, PastReuse), sight := if end.None? then Some(Sight(s.store.quotes, readAt)) else None)
  }

  function Asked(limits: RateLimiting.Limits, budget: Budget, f: nat, now: Time): Budget {
    var (book, refused) := Ask(limits, budget.book, now);
    budget.(book := book, events := budget.events + [RateLimiting.Allow(now)],
            admissions := if refused.None? then budget.admissions + [Admission(f, now)] else budget.admissions)
  }

  /** The instant until which an answer heard at `at` cools the limiter down. */
  function CoolsUntil(answer: Answer, at: Time): Option<Time> {
    if answer.Fails? && answer.failure.Classified? && answer.failure.err.retryAfter > 0
        then Some(at + answer.failure.err.retryAfter) else None
  }

  function Heard(pool: Pool, budget: Budget, answer: Answer, at: Time): Budget {
    budget.(book := Hear(pool.limits, budget.book, pool.provider, answer, at).0,
            events := match CoolsUntil(answer, at)
                      case Some(until) => budget.events + [RateLimiting.CoolDown(until)]
                      case None => budget.events)
  }

  ghost function Next(pool: Pool, s: State, step: Step): (t: State)
    requires |s.tasks| == |pool.reqs| && Enabled(pool, s, step)
    ensures |t.tasks| == |pool.reqs|
  {
    match step
    case Join(t, f) => s.(tasks := s.tasks[t := Running(f)])
    case Lead(t) => s.(tasks := s.tasks[t := Running(|s.flights|)],
      flights := s.flights + [Flight(pool.reqs[t].pair, t, Started, None)])
    case LookUp(f, readAt, readFault) => s.(flights := s.flights[f := LookedUp(s, f, readAt, readFault)])
    case AskLimiter(f, now) =>
      s.(flights := s.flights[f := s.flights[f].(stage := Onward(Ask(pool.limits, s.budget.book, now).1, Cleared))],
         budget := Asked(pool.limits, s.budget, f, now))
    case CallProvider(f) =>
      s.(flights := s.flights[f := s.flights[f].(stage := Calling)], budget := s.budget.(calls := s.budget.calls + [f]))
    case HearBack(f, answer, at) =>
      s.(flights := s.flights[f := s.flights[f].(stage := Landed(Hear(pool.limits, s.budget.book, pool.provider,
          answer, at).1))],
         budget := Heard(pool, s.budget, answer, at))
    case Finish(t, env) =>
      var f, q := s.tasks[t].flight, QuoteRecorded(pool, s, t, env);
      s.(store := Settled(pool, s, t, env).0, tasks := s.tasks[t := Finished(f, q)],
         posted := if q != 0 && q !in s.store.quotes then s.posted[q := f] else s.posted)
    case Others(op) => s.(store := Apply(s.store, op).0)
  }

  ghost predicate Runs(pool: Pool, store: Store, book: RateLimiting.Book, steps: seq<Step>)
    decreases |steps|, 0
  {
    steps == [] ||
    (Runs(pool, store, book, steps[..|steps| - 1])
     && Enabled(pool, After(pool, store, book, steps[..|steps| - 1]), steps[|steps| - 1]))
  }

  ghost function After(pool: Pool, store: Store, book: RateLimiting.Book, steps: seq<Step>): (s: State)
    requires Runs(pool, store, book, steps)
    ensures |s.tasks| == |pool.reqs|
    decreases |steps|, 1
  {
    if steps == [] then Init(pool, store, book)
    else Next(pool, After(pool, store, book, steps[..|steps| - 1]), steps[|steps| - 1])
  }

  // --------------------------------------------------------------- invariant

  /** A task's row is there; its flight is its pair's; and what it recorded is
      in its row, from its flight. */
  predicate TaskOk(pool: Pool, store: Store, tasks: seq<Task>, flights: seq<Flight>, t: nat)
    requires t < |tasks| == |pool.reqs|
  {
    var req := pool.reqs[t];
    && req.id in store.rows && store.rows[req.id].req.pair == req.pair
    && (!tasks[t].Queued? ==> tasks[t].flight < |flights| && flights[tasks[t].flight].pair == req.pair)
    && (tasks[t].Finished? && tasks[t].quoteId != 0 ==>
          && store.rows[req.id].req.status.Succeeded? && store.rows[req.id].quoteId == tasks[t].quoteId
          && RecordedFrom(store.quotes, flights[tasks[t].flight], tasks[t].quoteId))
  }

  /** The journal row a caller of this flight may point at. */
  predicate RecordedFrom(quotes: map<nat, StoredQuote>, flight: Flight, q: nat) {
    && flight.stage.Landed?
    && match flight.stage.resolution
       case Reused(quoteId) => q == quoteId
       case Fetched(rate) => Holds(quotes, q, flight.pair, rate)
       case _ => false
  }

  /** A flight in the air has its leader running, in a slot. */
  predicate FlightOk(store: Store, tasks: seq<Task>, flights: seq<Flight>, f: nat)
    requires f < |flights|
  {
    var flight := flights[f];
    && flight.leader < |tasks|
    && (!flight.stage.Landed? ==> tasks[flight.leader] == Running(f))
    && (flight.stage.Landed? ==> Sound(store, flight.pair, flight.stage.resolution))
  }

  predicate OneFlightPerPair(flights: seq<Flight>) {
    forall f, g | 0 <= f < |flights| && 0 <= g < |flights| && Flying(flights, f) && Flying(flights, g)
        && flights[f].pair == flights[g].pair :: f == g
  }

  predicate Sane(pool: Pool, store: Store, tasks: seq<Task>, flights: seq<Flight>) {
    && |tasks| == |pool.reqs| && Consistent(store)
    && (forall t | 0 <= t < |tasks| :: TaskOk(pool, store, tasks, flights, t))
    && (forall f | 0 <= f < |flights| :: FlightOk(store, tasks, flights, f))
    && OneFlightPerPair(flights)
    && Busy(tasks) <= pool.size
  }

  predicate Good(pool: Pool, s: State) {
    Sane(pool, s.store, s.tasks, s.flights)
  }

  /** The requests are rows of this store. */
  predicate Claimed(pool: Pool, store: Store) {
    && Consistent(store)
    && forall t | 0 <= t < |pool.reqs| ::
         pool.reqs[t].id in store.rows && store.rows[pool.reqs[t].id].req.pair == pool.reqs[t].pair
  }

  lemma {:induction false} BusyUpdate(tasks: seq<Task>, t: nat, task: Task)
    requires t < |tasks|
    ensures Busy(tasks[t := task]) == Busy(tasks) - (if tasks[t].Running? then 1 else 0) + (if task.Running? then 1
            else 0)
  {
    var last := |tasks| - 1;
    var changed := tasks[t := task];
    if t < last {
      BusyUpdate(tasks[..last], t, task);
      assert changed[..last] == tasks[..last][t := task];
    } else {
      assert changed[..last] == tasks[..last];
    }
  }

  lemma {:induction false} BusyNone(n: nat)
    ensures Busy(seq(n, _ => Queued)) == 0
  {
    if n == 0 {
    } else {
      var tasks := seq(n, _ => Queued);
      assert tasks[..n - 1] == seq(n - 1, _ => Queued);
      BusyNone(n - 1);
    }
  }

  /** Tasks and flights stay right as the store moves on. */
  lemma StoreMovesOn(pool: Pool, store: Store, later: Store, tasks: seq<Task>, flights: seq<Flight>)
    requires Sane(pool, store, tasks, flights) && Consistent(later) && Grown(store, later)
    requires forall id :: RowContinues(store, later, id)
    ensures Sane(pool, later, tasks, flights)
  {
    forall t | 0 <= t < |tasks| ensures TaskOk(pool, later, tasks, flights, t) {
      assert TaskOk(pool, store, tasks, flights, t);
      assert RowContinues(store, later, pool.reqs[t].id);
    }
    forall f | 0 <= f < |flights| ensures FlightOk(later, tasks, flights,
        f) { assert FlightOk(store, tasks, flights, f); }
  }

  lemma LeadKeeps(pool: Pool, s: State, t: nat)
    requires Good(pool, s) && Enabled(pool, s, Lead(t))
    ensures Good(pool, Next(pool, s, Lead(t)))
  {
    var u := Next(pool, s, Lead(t));
    BusyUpdate(s.tasks, t, Running(|s.flights|));
    forall i | 0 <= i < |u.tasks| ensures TaskOk(pool, u.store, u.tasks, u.flights,
        i) { assert TaskOk(pool, s.store, s.tasks, s.flights, i); }
    forall f | 0 <= f < |u.flights| ensures FlightOk(u.store, u.tasks, u.flights, f) {
      assert f < |s.flights| ==> FlightOk(s.store, s.tasks, s.flights, f);
    }
    forall f, g | 0 <= f < |u.flights| && 0 <= g < |u.flights| && Flying(u.flights, f) && Flying(u.flights, g)
        && u.flights[f].pair == u.flights[g].pair
      ensures f == g
    {
      assert f < |s.flights| ==> Flying(s.flights, f);
      assert g < |s.flights| ==> Flying(s.flights, g);
    }
  }

  lemma JoinKeeps(pool: Pool, s: State, t: nat, f: nat)
    requires Good(pool, s) && Enabled(pool, s, Join(t, f))
    ensures Good(pool, Next(pool, s, Join(t, f)))
  {
    var u := Next(pool, s, Join(t, f));
    BusyUpdate(s.tasks, t, Running(f));
    forall i | 0 <= i < |u.tasks| ensures TaskOk(pool, u.store, u.tasks, u.flights,
        i) { assert TaskOk(pool, s.store, s.tasks, s.flights, i); }
    forall g | 0 <= g < |u.flights| ensures FlightOk(u.store, u.tasks, u.flights,
        g) { assert FlightOk(s.store, s.tasks, s.flights, g); }
  }

  /** A flight going on, or landing with something sound, keeps the rest right. */
  lemma FlightGoesOn(pool: Pool, store: Store, tasks: seq<Task>, flights: seq<Flight>, f: nat, flight: Flight)
    requires Sane(pool, store, tasks, flights) && Flying(flights, f)
    requires flight.pair == flights[f].pair && flight.leader == flights[f].leader
    requires flight.stage.Landed? ==> Sound(store, flight.pair, flight.stage.resolution)
    ensures Sane(pool, store, tasks, flights[f := flight])
  {
    var later := flights[f := flight];
    forall t | 0 <= t < |tasks| ensures TaskOk(pool, store, tasks, later,
        t) { assert TaskOk(pool, store, tasks, flights, t); }
    forall g | 0 <= g < |later| ensures FlightOk(store, tasks, later, g) { assert FlightOk(store, tasks, flights, g); }
    assert forall g :: Flying(later, g) ==> Flying(flights, g);
  }

  /** What a finished task has recorded is in its row and from its flight. */
  lemma FinishRecords(pool: Pool, s: State, t: nat, env: Env)
    requires Good(pool, s) && Enabled(pool, s, Finish(t, env))
    ensures var store, q := Settled(pool, s, t, env).0, QuoteRecorded(pool, s, t, env);
            && Consistent(store) && Grown(s.store, store)
            && (forall id :: RowContinues(s.store, store, id))
            && (q != 0 ==>
                  && pool.reqs[t].id in store.rows && store.rows[pool.reqs[t].id].req.status.Succeeded?
                       && store.rows[pool.reqs[t].id].quoteId == q
                  && RecordedFrom(store.quotes, s.flights[s.tasks[t].flight], q))
  {
    assert TaskOk(pool, s.store, s.tasks, s.flights, t);
    var req, flight := pool.reqs[t], s.flights[s.tasks[t].flight];
    assert FlightOk(s.store, s.tasks, s.flights, s.tasks[t].flight);
    var resolution := flight.stage.resolution;
    var completion := Completion(pool.worker, req, resolution, env.now, env.jitter);
    CompletionIsFromWorker(pool.worker, s.store, req, resolution, env.now, env.jitter);
    if completion.Some? && env.written {
      StepKeeps(s.store, completion.value);
      forall id ensures RowContinues(s.store, Apply(s.store, completion.value).0,
          id) { StepContinues(s.store, completion.value, id); }
      if resolution.Fetched? { PostIs(s.store, req.pair, resolution.rate); }
    }
  }

  lemma FinishKeeps(pool: Pool, s: State, t: nat, env: Env)
    requires Good(pool, s) && Enabled(pool, s, Finish(t, env))
    ensures Good(pool, Next(pool, s, Finish(t, env)))
  {
    var u := Next(pool, s, Finish(t, env));
    FinishRecords(pool, s, t, env);
    StoreMovesOn(pool, s.store, u.store, s.tasks, s.flights);
    BusyUpdate(s.tasks, t, u.tasks[t]);
    forall i | 0 <= i < |u.tasks| ensures TaskOk(pool, u.store, u.tasks, u.flights,
        i) { assert TaskOk(pool, u.store, s.tasks, s.flights, i); }
    forall f | 0 <= f < |u.flights| ensures FlightOk(u.store, u.tasks, u.flights,
        f) { assert FlightOk(u.store, s.tasks, s.flights, f); }
  }

  lemma StepKeepsGood(pool: Pool, s: State, step: Step)
    requires Good(pool, s) && Enabled(pool, s, step)
    ensures Good(pool, Next(pool, s, step))
  {
    match step
    case Lead(t) => LeadKeeps(pool, s, t);
    case Join(t, f) => JoinKeeps(pool, s, t, f);
    case Finish(t, env) => FinishKeeps(pool, s, t, env);
    case Others(op) =>
      StepKeeps(s.store, op);
      forall id ensures RowContinues(s.store, Apply(s.store, op).0, id) { StepContinues(s.store, op, id); }
      StoreMovesOn(pool, s.store, Apply(s.store, op).0, s.tasks, s.flights);
    case LookUp(f, readAt, readFault) =>
      FetchIsSound(s.store, s.flights[f].pair, readAt, readFault, pool.limits, s.budget.book, 0, pool.provider, Panics,
          0);
      FlightGoesOn(pool, s.store, s.tasks, s.flights, f, LookedUp(s, f, readAt, readFault));
    case AskLimiter(f, now) =>
      FetchIsSound(s.store, s.flights[f].pair, 0, None, pool.limits, s.budget.book, now, pool.provider, Panics, 0);
      FlightGoesOn(pool, s.store, s.tasks, s.flights, f, Next(pool, s, step).flights[f]);
    case CallProvider(f) =>
      FlightGoesOn(pool, s.store, s.tasks, s.flights, f, Next(pool, s, step).flights[f]);
    case HearBack(f, answer, at) =>
      FetchIsSound(s.store, s.flights[f].pair, 0, None, pool.limits, s.budget.book, 0, pool.provider, answer, at);
      FlightGoesOn(pool, s.store, s.tasks, s.flights, f, Next(pool, s, step).flights[f]);
  }

  /** In every interleaving with any other workers and clients: at most one
      flight in the air per pair, each led by a task that holds a slot, never
      more tasks running than the pool allows, and every finished task's row
      as it recorded it. */
  lemma {:induction false} AlwaysGood(pool: Pool, store: Store, book: RateLimiting.Book, steps: seq<Step>)
    requires Claimed(pool, store) && Runs(pool, store, book, steps)
    ensures Good(pool, After(pool, store, book, steps))
    decreases |steps|
  {
    if steps == [] {
      BusyNone(|pool.reqs|);
      var s := Init(pool, store, book);
      assert forall t | 0 <= t < |pool.reqs| :: TaskOk(pool, s.store, s.tasks, s.flights, t);
    } else {
      AlwaysGood(pool, store, book, steps[..|steps| - 1]);
      StepKeepsGood(pool, After(pool, store, book, steps[..|steps| - 1]), steps[|steps| - 1]);
    }
  }

  // ----------------------------------------------------- one flight, one row

  /** The rows of all callers of one flight that were recorded have succeeded
      and point at the same journal row. */
  lemma OneFlightOneRow(pool: Pool, store: Store, book: RateLimiting.Book, steps: seq<Step>, a: nat, b: nat)
    requires Claimed(pool, store) && Runs(pool, store, book, steps)
    requires var tasks := After(pool, store, book, steps).tasks;
             && a < |tasks| && b < |tasks| && tasks[a].Finished? && tasks[b].Finished?
             && tasks[a].flight == tasks[b].flight && tasks[a].quoteId != 0 && tasks[b].quoteId != 0
    ensures var rows := After(pool, store, book, steps).store.rows;
            var i, j := pool.reqs[a].id, pool.reqs[b].id;
            && i in rows && j in rows && rows[i].req.status.Succeeded? && rows[j].req.status.Succeeded?
            && rows[i].quoteId == rows[j].quoteId
  {
    var s := After(pool, store, book, steps);
    AlwaysGood(pool, store, book, steps);
    assert TaskOk(pool, s.store, s.tasks, s.flights, a) && TaskOk(pool, s.store, s.tasks, s.flights, b);
    var p, q := s.tasks[a].quoteId, s.tasks[b].quoteId;
    if s.flights[s.tasks[a].flight].stage.resolution.Fetched? {
      assert SameQuote(s.store.quotes[p], s.store.quotes[q].pair, s.store.quotes[q].rate);
    }
  }

  lemma SettleFindsRow(worker: Config, s: Store, req: Request, resolution: Resolution, env: Env, p: nat)
    requires UniqueQuotes(s.quotes, s.nextQuoteId)
    requires resolution.Fetched? ==> Holds(s.quotes, p, req.pair, resolution.rate)
    ensures Settle(worker, s, req, resolution, env).0.quotes == s.quotes
  {
    if resolution.Fetched? { PostIs(s, req.pair, resolution.rate); }
  }

  /** After the first of them has been recorded, no other adds a journal row. */
  lemma OnlyTheFirstPosts(pool: Pool, store: Store, book: RateLimiting.Book, steps: seq<Step>, a: nat, b: nat, env: Env)
    requires Claimed(pool, store) && Runs(pool, store, book, steps)
    requires var s := After(pool, store, book, steps);
             && Enabled(pool, s, Finish(b, env)) && a < |s.tasks| && s.tasks[a].Finished?
             && s.tasks[a].flight == s.tasks[b].flight && s.tasks[a].quoteId != 0
    ensures var s := After(pool, store, book, steps);
            Next(pool, s, Finish(b, env)).store.quotes == s.store.quotes
  {
    var s := After(pool, store, book, steps);
    AlwaysGood(pool, store, book, steps);
    assert TaskOk(pool, s.store, s.tasks, s.flights, a) && TaskOk(pool, s.store, s.tasks, s.flights, b);
    SettleFindsRow(pool.worker, s.store, pool.reqs[b], s.flights[s.tasks[b].flight].stage.resolution, env,
        s.tasks[a].quoteId);
  }

  // ------------------------------------------------ no deadlock, and an end

  lemma {:induction false} NobodyRuns(tasks: seq<Task>)
    requires forall t | 0 <= t < |tasks| :: !tasks[t].Running?
    ensures Busy(tasks) == 0
  {
    if tasks == [] {
    } else {
      NobodyRuns(tasks[..|tasks| - 1]);
    }
  }

  /** With a pool of at least one, some task can always take its next step
      while any is unfinished: a waiter only waits for a leader that runs. */
  lemma NeverStuck(pool: Pool, store: Store, book: RateLimiting.Book, steps: seq<Step>, unfinished: nat)
    returns (next: Step)
    requires Claimed(pool, store) && Runs(pool, store, book, steps) && pool.size >= 1
    requires unfinished < |pool.reqs| && !After(pool, store, book, steps).tasks[unfinished].Finished?
    ensures !next.Others? && Enabled(pool, After(pool, store, book, steps), next)
  {
    var s := After(pool, store, book, steps);
    AlwaysGood(pool, store, book, steps);
    if t :| 0 <= t < |s.tasks| && s.tasks[t].Running? {
      assert TaskOk(pool, s.store, s.tasks, s.flights, t);
      var f := s.tasks[t].flight;
      assert FlightOk(s.store, s.tasks, s.flights, f);
      match s.flights[f].stage
      case Started => next := LookUp(f, 0, None);
      case PastReuse => next := AskLimiter(f, 0);
      case Cleared => next := CallProvider(f);
      case Calling => next := HearBack(f, Panics, 0);
      case Landed(_) => next := Finish(t, Env(0, None, 0, 0, 0, Panics, Backoff.UNIT, true));
    } else {
      NobodyRuns(s.tasks);
      if f: nat :| Flying(s.flights, f) && s.flights[f].pair == pool.reqs[unfinished].pair {
        next := Join(unfinished, f);
      } else {
        next := Lead(unfinished);
      }
    }
  }

  /** The steps a task, and a flight, still have to take. */
  function Weight(task: Task): nat {
    match task case Queued => 6 case Running(_) => 1 case Finished(_, _) => 0
  }

  function Ahead(stage: Stage): nat {
    match stage case Started => 4 case PastReuse => 3 case Cleared => 2 case Calling => 1 case Landed(_) => 0
  }

  function TaskWeight(tasks: seq<Task>): nat {
    if tasks == [] then 0
    else TaskWeight(tasks[..|tasks| - 1]) + Weight(tasks[|tasks| - 1])
  }

  function InTheAir(flights: seq<Flight>): nat {
    if flights == [] then 0
    else InTheAir(flights[..|flights| - 1]) + Ahead(flights[|flights| - 1].stage)
  }

  /** The steps the pass still has to take, at most. */
  function Remaining(s: State): nat {
    TaskWeight(s.tasks) + InTheAir(s.flights)
  }

  lemma {:induction false} WeightUpdate(tasks: seq<Task>, t: nat, task: Task)
    requires t < |tasks|
    ensures TaskWeight(tasks[t := task]) == TaskWeight(tasks) - Weight(tasks[t]) + Weight(task)
  {
    var last := |tasks| - 1;
    var changed := tasks[t := task];
    if t < last {
      WeightUpdate(tasks[..last], t, task);
      assert changed[..last] == tasks[..last][t := task];
    } else {
      assert changed[..last] == tasks[..last];
    }
  }

  lemma {:induction false} AirUpdate(flights: seq<Flight>, f: nat, flight: Flight)
    requires f < |flights|
    ensures InTheAir(flights[f := flight]) == InTheAir(flights) - Ahead(flights[f].stage) + Ahead(flight.stage)
  {
    var last := |flights| - 1;
    var changed := flights[f := flight];
    if f < last {
      AirUpdate(flights[..last], f, flight);
      assert changed[..last] == flights[..last][f := flight];
    } else {
      assert changed[..last] == flights[..last];
    }
  }

  lemma StepsRunDown(pool: Pool, s: State, step: Step)
    requires |s.tasks| == |pool.reqs| && Enabled(pool, s, step)
    ensures if step.Others? then Remaining(Next(pool, s, step)) == Remaining(s)
            else Remaining(Next(pool, s, step)) < Remaining(s)
  {
    var u := Next(pool, s, step);
    match step
    case Join(t, f) => WeightUpdate(s.tasks, t, Running(f));
    case Lead(t) =>
      WeightUpdate(s.tasks, t, Running(|s.flights|));
      assert u.flights[..|s.flights|] == s.flights;
    case Finish(t, env) => WeightUpdate(s.tasks, t, u.tasks[t]);
    case Others(_) =>
    case _ => AirUpdate(s.flights, step.f, u.flights[step.f]);
  }

  function OwnSteps(steps: seq<Step>): nat {
    if steps == [] then 0 else OwnSteps(steps[..|steps| - 1]) + if steps[|steps| - 1].Others? then 0 else 1
  }

  lemma {:induction false} AllQueuedWeight(n: nat)
    ensures TaskWeight(seq(n, _ => Queued)) == 6 * n
  {
    if n == 0 {
    } else {
      var tasks := seq(n, _ => Queued);
      assert tasks[..n - 1] == seq(n - 1, _ => Queued);
      AllQueuedWeight(n - 1);
    }
  }

  /** A pass over n rows takes at most 6n steps of its own, whatever runs in
      between; as it is never stuck, it always finishes. */
  lemma {:induction false} PassEnds(pool: Pool, store: Store, book: RateLimiting.Book, steps: seq<Step>)
    requires Runs(pool, store, book, steps)
    ensures OwnSteps(steps) + Remaining(After(pool, store, book, steps)) <= 6 * |pool.reqs|
    decreases |steps|
  {
    if steps == [] {
      AllQueuedWeight(|pool.reqs|);
    } else {
      PassEnds(pool, store, book, steps[..|steps| - 1]);
      StepsRunDown(pool, After(pool, store, book, steps[..|steps| - 1]), steps[|steps| - 1]);
    }
  }

  lemma Extend(pool: Pool, store: Store, book: RateLimiting.Book, steps: seq<Step>, step: Step)
    requires Runs(pool, store, book, steps) && Enabled(pool, After(pool, store, book, steps), step)
    ensures Runs(pool, store, book, steps + [step])
    ensures After(pool, store, book, steps + [step]) == Next(pool, After(pool, store, book, steps), step)
  {
    var all := steps + [step];
    LastOfRun(pool, store, book, all, steps, step);
  }

  lemma LastOfRun(pool: Pool, store: Store, book: RateLimiting.Book, all: seq<Step>, init: seq<Step>, last: Step)
    requires all != [] && all[..|all| - 1] == init && all[|all| - 1] == last
    requires Runs(pool, store, book, init) && Enabled(pool, After(pool, store, book, init), last)
    ensures Runs(pool, store, book, all)
    ensures After(pool, store, book, all) == Next(pool, After(pool, store, book, init), last)
  {}
}
