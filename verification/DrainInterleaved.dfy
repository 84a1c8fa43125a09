/** The drain with its pool: whatever the order in which the tasks of each
    pass take their steps, and whatever the flights they share. */
module InterleavedDrain {
  import opened Domain
  import opened Sets
  import opened Queue
  import opened Claims
  import opened Policy
  import opened Drain
  import opened Flights
  import opened MemoryRepository

  /** The process is alone with the store, its clock stands still, and no
      Retry-After is longer than 4/5 of 2^63. */
  predicate QuietStep(step: Step, now: Time) {
    match step
    case Others(_) => false
    case AskLimiter(_, at) => at == now
    case HearBack(_, answer, at) => at == now && TameAnswer(answer)
    case Finish(_, env) => env.now == now && Backoff.IsJitter(env.jitter)
    case _ => true
  }

  predicate Quiet(steps: seq<Step>, now: Time) {
    forall i | 0 <= i < |steps| :: QuietStep(steps[i], now)
  }

  /** The claimed requests, each of another row. */
  predicate Batch(pool: Pool, rows: map<Id, Row>, now: Time) {
    && (forall t | 0 <= t < |pool.reqs| :: JustClaimed(rows, pool.reqs[t].id, now))
    && (forall t, u | 0 <= t < u < |pool.reqs| :: pool.reqs[t].id != pool.reqs[u].id)
  }

  /** Unfinished tasks' rows are as they were claimed. */
  predicate Waits(pool: Pool, s: State, now: Time)
    requires |s.tasks| == |pool.reqs|
  {
    forall t | 0 <= t < |s.tasks| && !s.tasks[t].Finished? :: JustClaimed(s.store.rows, pool.reqs[t].id, now)
  }

  /** The limiter is calm, and flights that have landed are tame. */
  predicate TameState(s: State, now: Time) {
    && Calm(s.budget.book, now)
    && forall f | 0 <= f < |s.flights| && s.flights[f].stage.Landed? :: TameResolution(s.flights[f].stage.resolution)
  }

  lemma StepStaysTame(pool: Pool, s: State, step: Step, now: Time)
    requires |s.tasks| == |pool.reqs| && Enabled(pool, s, step) && QuietStep(step, now) && TameState(s, now)
    ensures TameState(Next(pool, s, step), now)
  {
    match step
    case AskLimiter(_, _) => AskIsTame(pool.limits, s.budget.book, now);
    case HearBack(_, answer, _) => HearIsTame(pool.limits, s.budget.book, pool.provider, answer, now);
    case _ =>
  }

  lemma FinishKeepsBacklog(pool: Pool, s: State, t: nat, env: Env, now: Time, visibility: Duration)
    requires |s.tasks| == |pool.reqs| && Enabled(pool, s, Finish(t, env)) && QuietStep(Finish(t, env), now)
    requires Defers(pool.worker) && 0 <= visibility && Waits(pool, s, now) && TameState(s, now)
    requires forall a, b | 0 <= a < b < |pool.reqs| :: pool.reqs[a].id != pool.reqs[b].id
    ensures var u := Next(pool, s, Finish(t, env));
            && Backlog(u.store.rows, now, visibility) == Backlog(s.store.rows, now, visibility)
            && ClaimKept(s.store.rows, u.store.rows, {pool.reqs[t].id}) && Waits(pool, u, now)
  {
    var req, resolution := pool.reqs[t], s.flights[s.tasks[t].flight].stage.resolution;
    SettleKeepsBacklog(pool.worker, s.store, req, resolution, env, visibility);
    NeverDueAtOnce(pool.worker, req, resolution, env);
    SettleKeepsClaim(pool.worker, s.store, req, resolution, env);
  }

  /** In every interleaving of a pass's tasks, and wherever it stops, the
      backlog is what it was after the claim, and no row but the batch's has
      changed. */
  lemma {:induction false} PassKeepsBacklog(pool: Pool, store: Store, book: RateLimiting.Book, steps: seq<Step>,
          now: Time, visibility: Duration)
    requires Runs(pool, store, book, steps) && Quiet(steps, now) && Batch(pool, store.rows, now)
    requires Defers(pool.worker) && 0 <= visibility && Calm(book, now)
    ensures var s := After(pool, store, book, steps);
            && Backlog(s.store.rows, now, visibility) == Backlog(store.rows, now, visibility)
            && ClaimKept(store.rows, s.store.rows, Elements(Ids(pool.reqs))) && Waits(pool, s, now) && TameState(s, now)
    decreases |steps|
  {
    if steps == [] {
    } else {
      var init, step := steps[..|steps| - 1], steps[|steps| - 1];
      PassKeepsBacklog(pool, store, book, init, now, visibility);
      var s := After(pool, store, book, init);
      assert QuietStep(step, now);
      StepStaysTame(pool, s, step, now);
      if step.Finish? {
        FinishKeepsBacklog(pool, s, step.t, step.env, now, visibility);
        assert Ids(pool.reqs)[step.t] in Elements(Ids(pool.reqs));
        ClaimKeptOnce(store.rows, s.store.rows, After(pool, store, book, steps).store.rows, Elements(Ids(pool.reqs)),
            pool.reqs[step.t].id);
      }
    }
  }

  // -------------------------------------------------------------- the drain

  /** One pass: the pool it runs, with the requests it claimed, and the steps its tasks took. */
  datatype Pass = Pass(pool: Pool, steps: seq<Step>)

  function AfterClaim(store: Store, reqs: seq<Request>, now: Time): Store {
    store.(rows := ClaimRows(store.rows, Elements(Ids(reqs)), now))
  }

  ghost predicate PassRuns(pass: Pass, store: Store, book: RateLimiting.Book, batchSize: nat, now: Time,
          visibility: Duration) {
    && IsBatch(store.rows, AfterClaim(store, pass.pool.reqs, now).rows, pass.pool.reqs, batchSize, now,
         now - visibility)
    && Defers(pass.pool.worker) && Quiet(pass.steps, now)
    && Runs(pass.pool, AfterClaim(store, pass.pool.reqs, now), book, pass.steps)
  }

  /** Passes follow each other while they come back full. */
  ghost predicate DrainRuns(passes: seq<Pass>, store: Store, book: RateLimiting.Book, batchSize: nat, now: Time,
          visibility: Duration)
    decreases |passes|
  {
    && passes != [] && PassRuns(passes[0], store, book, batchSize, now, visibility)
    && (var s := After(passes[0].pool, AfterClaim(store, passes[0].pool.reqs, now), book, passes[0].steps);
        if |passes[0].pool.reqs| == batchSize then DrainRuns(passes[1..], s.store, s.budget.book, batchSize, now,
            visibility)
        else passes[1..] == [])
  }

  ghost function Drained(passes: seq<Pass>, store: Store, book: RateLimiting.Book, batchSize: nat, now: Time,
          visibility: Duration): Store
    requires DrainRuns(passes, store, book, batchSize, now, visibility)
    decreases |passes|
  {
    var s := After(passes[0].pool, AfterClaim(store, passes[0].pool.reqs, now), book, passes[0].steps);
    if |passes[0].pool.reqs| == batchSize then Drained(passes[1..], s.store, s.budget.book, batchSize, now, visibility)
        else s.store
  }

  /** What one pass does, in any interleaving of its tasks. */
  lemma OnePass(pass: Pass, store: Store, book: RateLimiting.Book, batchSize: nat, now: Time, visibility: Duration)
    requires PassRuns(pass, store, book, batchSize, now, visibility) && 0 <= visibility && Calm(book, now)
    ensures var batch := Elements(Ids(pass.pool.reqs));
            var waiting := Backlog(store.rows, now, visibility);
            var s := After(pass.pool, AfterClaim(store, pass.pool.reqs, now), book, pass.steps);
            && batch <= waiting && |batch| == |pass.pool.reqs| == Min(batchSize, |waiting|)
            && Backlog(s.store.rows, now, visibility) == waiting - batch && Calm(s.budget.book, now)
            && ClaimedOnce(store.rows, s.store.rows, batch, now)
  {
    var reqs, claimed := pass.pool.reqs, AfterClaim(store, pass.pool.reqs, now);
    ClaimedBatch(store.rows, claimed.rows, reqs, batchSize, now, visibility);
    PassKeepsBacklog(pass.pool, claimed, book, pass.steps, now, visibility);
    ClaimThenKeep(store.rows, Elements(Ids(reqs)), now, After(pass.pool, claimed, book, pass.steps).store.rows);
  }

  lemma OneLess(n: nat, batchSize: nat)
    requires 0 < batchSize <= n
    ensures n / batchSize == (n - batchSize) / batchSize + 1
  {
    var q, r := (n - batchSize) / batchSize, (n - batchSize) % batchSize;
    Backoff.Distribute(batchSize, q, 1);
    QuotientIs(n, q + 1, batchSize, r);
  }

  lemma FullPass(waiting: set<Id>, batch: set<Id>, batchSize: nat, rows: map<Id, Row>, later: map<Id, Row>,
          last: map<Id, Row>, now: Time)
    requires 0 < batchSize && batch <= waiting && |batch| == batchSize
    requires ClaimedOnce(rows, later, batch, now) && ClaimedOnce(later, last, waiting - batch, now)
    ensures |waiting| / batchSize == |waiting - batch| / batchSize + 1
    ensures ClaimedOnce(rows, last, waiting, now)
  {
    UnionSize(waiting - batch, batch);
    assert waiting == batch + (waiting - batch) == (waiting - batch) + batch;
    OneLess(|waiting|, batchSize);
    ClaimedOnceAddsUp(rows, later, last, batch, waiting - batch, now);
  }

  lemma LastPass(waiting: set<Id>, batch: set<Id>, batchSize: nat)
    requires 0 < batchSize && batch <= waiting && |batch| == Min(batchSize, |waiting|) && |batch| != batchSize
    ensures batch == waiting && waiting - batch == {} && |waiting| / batchSize == 0
  {
    SubsetSize(batch, waiting);
    QuotientIs(|waiting|, 0, batchSize, |waiting|);
  }

  /** With n rows waiting, one trigger makes exactly n / batchSize + 1 passes,
      in every interleaving of every pass's tasks; each waiting row is claimed
      once, and no other row is touched. */
  lemma {:induction false} DrainIsExact(passes: seq<Pass>, store: Store, book: RateLimiting.Book, batchSize: nat,
          now: Time, visibility: Duration)
    requires DrainRuns(passes, store, book, batchSize, now, visibility) && 0 <= visibility && 0 < batchSize
    requires Calm(book, now)
    ensures var waiting := Backlog(store.rows, now, visibility);
            var after := Drained(passes, store, book, batchSize, now, visibility);
            && |passes| == |waiting| / batchSize + 1
            && Backlog(after.rows, now, visibility) == {}
            && ClaimedOnce(store.rows, after.rows, waiting, now)
    decreases |passes|
  {
    OnePass(passes[0], store, book, batchSize, now, visibility);
    var batch, waiting := Elements(Ids(passes[0].pool.reqs)), Backlog(store.rows, now, visibility);
    var s := After(passes[0].pool, AfterClaim(store, passes[0].pool.reqs, now), book, passes[0].steps);
    if |passes[0].pool.reqs| == batchSize {
      DrainIsExact(passes[1..], s.store, s.budget.book, batchSize, now, visibility);
      FullPass(waiting, batch, batchSize, store.rows, s.store.rows,
          Drained(passes, store, book, batchSize, now, visibility).rows, now);
    } else {
      LastPass(waiting, batch, batchSize);
    }
  }
}
