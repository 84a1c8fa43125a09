/** The dispatcher's drain loop: claim a batch, process it, and claim again
    while batches come back full. */
module Drain {
  import opened Domain
  import opened Sets
  import opened Queue
  import opened Claims
  import opened MemoryRepository
  import opened Policy
  import opened Backoff

  /** With tame errors every deferral is at least a nanosecond away. */
  predicate Defers(cfg: Config) {
    ValidBackoff(cfg.baseBackoff, cfg.maxBackoff) && 2 <= cfg.baseBackoff && 2 <= cfg.maxBackoff <= LONGEST_WAIT
  }

  /** Whatever the outside world does, its clock stays at `now`, and no
      Retry-After is longer than 4/5 of 2^63. */
  predicate FrozenEnv(env: Env, now: Time) {
    env.now == env.allowAt == env.answeredAt == now && IsJitter(env.jitter) && TameAnswer(env.answer)
  }

  ghost predicate Frozen(envs: Id -> Env, now: Time) {
    forall id :: FrozenEnv(envs(id), now)
  }

  /** What is left to claim at a frozen clock. */
  function Backlog(rows: map<Id, Row>, now: Time, visibility: Duration): set<Id> {
    Candidates(rows, now, now - visibility)
  }

  /** Who is waiting: rows pending and due, and rows in progress that were
      locked more than the visibility timeout before. */
  lemma BacklogIs(rows: map<Id, Row>, now: Time, visibility: Duration, id: Id)
    ensures id in Backlog(rows, now, visibility)
            <==> id in rows
                 && ((rows[id].req.status == Pending && rows[id].nextAttemptAt <= now)
                     || (rows[id].req.status == InProgress && now - rows[id].lockedAt > visibility))
  {}

  /** A row claimed at `now` and not yet recorded. */
  predicate JustClaimed(rows: map<Id, Row>, id: Id, now: Time) {
    id in rows && rows[id].req.status.InProgress? && rows[id].lockedAt == now
  }

  lemma ClaimShrinksBacklog(rows: map<Id, Row>, chosen: set<Id>, now: Time, visibility: Duration)
    requires chosen <= Backlog(rows, now, visibility) && 0 <= visibility
    ensures Backlog(ClaimRows(rows, chosen, now), now, visibility) == Backlog(rows, now, visibility) - chosen
    ensures forall id | id in chosen :: JustClaimed(ClaimRows(rows, chosen, now), id, now)
  {
    var claimed := ClaimRows(rows, chosen, now);
    forall id ensures id in Backlog(claimed, now, visibility) <==> id in Backlog(rows, now, visibility) - chosen {}
  }

  /** The row is put back for an instant that has already come. */
  predicate DueAtOnce(cfg: Config, req: Request, resolution: Resolution, env: Env) {
    match Completion(cfg, req, resolution, env.now, env.jitter)
    case Some(Failure(_, _, _, retryable, next, now)) => env.written && retryable && next <= now
    case _ => false
  }

  /** Whatever becomes of a claimed row at the frozen clock, success, deferral,
      failure, an error returned, a panic or a lost write, it comes back to the
      backlog only if it is deferred to no later than now; nothing else moves. */
  lemma SettleKeepsBacklog(cfg: Config, s: Store, req: Request, resolution: Resolution, env: Env, visibility: Duration)
    requires 0 <= visibility && JustClaimed(s.rows, req.id, env.now)
    ensures Backlog(Settle(cfg, s, req, resolution, env).0.rows, env.now, visibility)
            == Backlog(s.rows, env.now, visibility) + if DueAtOnce(cfg, req, resolution, env) then {req.id} else {}
  {
    var rows := Settle(cfg, s, req, resolution, env).0.rows;
    SettleKeepsClaim(cfg, s, req, resolution, env);
    SettledIsEligibleIff(cfg, s, req, resolution, env, visibility);
    assert !Eligible(s.rows[req.id], env.now, env.now - visibility);
    var back := if DueAtOnce(cfg, req, resolution, env) then {req.id} else {};
    forall id ensures id in Backlog(rows, env.now, visibility) <==> id in Backlog(s.rows, env.now, visibility) + back {}
  }

  lemma SettledIsEligibleIff(cfg: Config, s: Store, req: Request, resolution: Resolution, env: Env,
          visibility: Duration)
    requires 0 <= visibility && JustClaimed(s.rows, req.id, env.now)
    ensures var rows := Settle(cfg, s, req, resolution, env).0.rows;
            req.id in rows
                && (Eligible(rows[req.id], env.now, env.now - visibility) <==> DueAtOnce(cfg, req, resolution, env))
  {}

  /** Where deferrals are later and the error is tame, no row is due at once. */
  lemma NeverDueAtOnce(cfg: Config, req: Request, resolution: Resolution, env: Env)
    requires Defers(cfg) && IsJitter(env.jitter) && TameResolution(resolution)
    ensures !DueAtOnce(cfg, req, resolution, env)
  {
    if resolution.Failing? {
      var retryAfter := if resolution.failure.Classified? then resolution.failure.err.retryAfter else 0;
      DeferralsAreLaterIff(cfg.baseBackoff, cfg.maxBackoff);
      assert env.now < NextAttemptAt(cfg.baseBackoff, cfg.maxBackoff, retryAfter, req.attempts, env.now, env.jitter);
    }
  }

  /** A retryable error under a budget never puts its row back at once, for
      every factor and platform, if and only if the wait is at least 2ns and
      at most 4/5 of 2^63. */
  lemma NeverDueAtOnceIff(cfg: Config, req: Request, err: RateError, env: Env)
    requires ValidBackoff(cfg.baseBackoff, cfg.maxBackoff) && err.retryable
    requires req.attempts < cfg.maxAttempts && env.now - req.createdAt < cfg.maxLifetime
    requires env.written
    ensures (forall jitter | IsJitter(jitter) :: !DueAtOnce(cfg, req, Failing(Classified(err)), env.(jitter := jitter)))
            <==> 2 <= Wait(cfg.baseBackoff, cfg.maxBackoff, err.retryAfter, req.attempts) <= LONGEST_WAIT
  {
    DeferralIsLaterIff(cfg.baseBackoff, cfg.maxBackoff, err.retryAfter, req.attempts, env.now);
    forall jitter
      ensures DueAtOnce(cfg, req, Failing(Classified(err)), env.(jitter := jitter))
              <==> !(env.now < NextAttemptAt(cfg.baseBackoff, cfg.maxBackoff, err.retryAfter, req.attempts, env.now,
                  jitter)) {}
  }

  /** Under the shipped backoff, a first attempt refused with a Retry-After of
      2^63 - 1 can be back in the backlog the instant it was deferred. */
  lemma FarRetryAfterRejoins(cfg: Config, s: Store, req: Request, err: RateError, env: Env, visibility: Duration)
    requires cfg.baseBackoff == DEFAULT_BASE && cfg.maxBackoff == DEFAULT_MAX && BudgetLeft(cfg, req, env.now)
    requires req.attempts == 1
    requires err.retryable && err.retryAfter == TWO_63 - 1 && env.written && env.jitter == Jitter(1.1, -TWO_63)
    requires 0 <= visibility && JustClaimed(s.rows, req.id, env.now)
    ensures req.id in Backlog(Settle(cfg, s, req, Failing(Classified(err)), env).0.rows, env.now, visibility)
  {
    FarRetryAfterIsPast(env.now);
    SettleKeepsBacklog(cfg, s, req, Failing(Classified(err)), env, visibility);
  }

  /** Rows of the batch keep their claim: identity, attempts and lock. No
      other row changes, and none appears or goes. */
  predicate ClaimKept(before: map<Id, Row>, after: map<Id, Row>, batch: set<Id>) {
    && after.Keys == before.Keys
    && forall id | id in before ::
         if id in batch then SameClaim(before[id], after[id]) else after[id] == before[id]
  }

  predicate SameClaim(a: Row, b: Row) {
    SameIdentity(a, b) && b.req.attempts == a.req.attempts && b.lockedAt == a.lockedAt
  }

  lemma SettleKeepsClaim(cfg: Config, s: Store, req: Request, resolution: Resolution, env: Env)
    requires req.id in s.rows
    ensures ClaimKept(s.rows, Settle(cfg, s, req, resolution, env).0.rows, {req.id})
  {}

  lemma ClaimKeptOnce(a: map<Id, Row>, b: map<Id, Row>, c: map<Id, Row>, batch: set<Id>, one: Id)
    requires ClaimKept(a, b, batch) && ClaimKept(b, c, {one}) && one in batch
    ensures ClaimKept(a, c, batch)
  {
    forall id | id in a ensures if id in batch then SameClaim(a[id], c[id]) else c[id] == a[id] { assert id in b; }
  }

  /** Each row of `claimed` was claimed once, at `now`: locked then, with one
      attempt more if it was pending and as many as before if it was
      reclaimed. No other row changed, and none appeared or went. */
  predicate ClaimedOnce(before: map<Id, Row>, after: map<Id, Row>, claimed: set<Id>, now: Time) {
    && claimed <= before.Keys && after.Keys == before.Keys
    && forall id | id in before ::
         if id in claimed then ClaimedAt(before[id], after[id], now) else after[id] == before[id]
  }

  predicate ClaimedAt(before: Row, after: Row, now: Time) {
    && SameIdentity(before, after) && after.lockedAt == now
    && after.req.attempts == before.req.attempts + if before.req.status.Pending? then 1 else 0
  }

  lemma ClaimThenKeep(a: map<Id, Row>, chosen: set<Id>, now: Time, c: map<Id, Row>)
    requires chosen <= a.Keys && ClaimKept(ClaimRows(a, chosen, now), c, chosen)
    ensures ClaimedOnce(a, c, chosen, now)
  {
    var b := ClaimRows(a, chosen, now);
    forall id | id in a ensures if id in chosen then ClaimedAt(a[id], c[id], now)
        else c[id] == a[id] { assert id in b; }
  }

  /** Batches without a row in common add up. */
  lemma ClaimedOnceAddsUp(a: map<Id, Row>, b: map<Id, Row>, c: map<Id, Row>, first: set<Id>, second: set<Id>, now: Time)
    requires ClaimedOnce(a, b, first, now) && ClaimedOnce(b, c, second, now) && first !! second
    ensures ClaimedOnce(a, c, first + second, now)
  {
    forall id | id in a ensures if id in first + second then ClaimedAt(a[id], c[id], now)
        else c[id] == a[id] { assert id in b; }
  }

  function Union(batches: seq<set<Id>>): set<Id> {
    if batches == [] then {} else Union(batches[..|batches| - 1]) + batches[|batches| - 1]
  }

  /** Each id is in at most one batch. */
  predicate Disjoint(batches: seq<set<Id>>) {
    batches == [] || (Disjoint(batches[..|batches| - 1]) && Union(batches[..|batches| - 1]) !! batches[|batches| - 1])
  }

  lemma OneMoreBatch(batches: seq<set<Id>>, batch: set<Id>)
    ensures Union(batches + [batch]) == Union(batches) + batch
  {
    assert (batches + [batch])[..|batches|] == batches;
  }

  lemma {:induction false} InOneBatchOnly(batches: seq<set<Id>>, i: nat, j: nat, id: Id)
    requires Disjoint(batches) && i < |batches| && j < |batches| && id in batches[i] && id in batches[j]
    ensures i == j && id in Union(batches)
  {
    var last := |batches| - 1;
    var init := batches[..last];
    if i < last { InOneBatchOnly(init, i, i, id); }
    if j < last { InOneBatchOnly(init, j, j, id); }
    if i < last && j < last { InOneBatchOnly(init, i, j, id); }
  }

  /** How far a drain has come: `left` of the `waiting` rows are unclaimed. */
  predicate Progress(waiting: set<Id>, batches: seq<set<Id>>, batchSize: nat, left: set<Id>, full: bool)
    requires batchSize > 0
  {
    && Disjoint(batches) && Union(batches) <= waiting && left == waiting - Union(batches)
    && (full ==> |waiting| == |batches| * batchSize + |left|)
    && (!full ==> left == {} && |batches| == |waiting| / batchSize + 1)
  }

  /** The same, with what became of the rows since the drain began. */
  predicate DrainedSoFar(waiting: set<Id>, rows: map<Id, Row>, batches: seq<set<Id>>, batchSize: nat, now: Time,
                         left: set<Id>, current: map<Id, Row>, full: bool)
    requires batchSize > 0
  {
    Progress(waiting, batches, batchSize, left, full) && ClaimedOnce(rows, current, Union(batches), now)
  }

  lemma PassDrains(waiting: set<Id>, rows: map<Id, Row>, batches: seq<set<Id>>, batchSize: nat, now: Time,
                   left: set<Id>, current: map<Id, Row>, batch: set<Id>, later: map<Id, Row>)
    requires batchSize > 0 && DrainedSoFar(waiting, rows, batches, batchSize, now, left, current, true)
    requires batch <= left && |batch| == Min(batchSize, |left|) && ClaimedOnce(current, later, batch, now)
    ensures DrainedSoFar(waiting, rows, batches + [batch], batchSize, now, left - batch, later, |batch| == batchSize)
    ensures |left - batch| == |left| - |batch|
  {
    PassMakesProgress(waiting, batches, batchSize, left, batch);
    OneMoreBatch(batches, batch);
    ClaimedOnceAddsUp(rows, current, later, Union(batches), batch, now);
  }

  lemma AllDrained(waiting: set<Id>, rows: map<Id, Row>, batches: seq<set<Id>>, batchSize: nat, now: Time,
                   left: set<Id>, current: map<Id, Row>)
    requires batchSize > 0 && DrainedSoFar(waiting, rows, batches, batchSize, now, left, current, false)
    ensures left == {} && |batches| == |waiting| / batchSize + 1 && Disjoint(batches) && Union(batches) == waiting
    ensures ClaimedOnce(rows, current, waiting, now)
  {
    NothingLeft(waiting, Union(batches));
  }

  lemma PassMakesProgress(waiting: set<Id>, batches: seq<set<Id>>, batchSize: nat, left: set<Id>, batch: set<Id>)
    requires batchSize > 0 && Progress(waiting, batches, batchSize, left, true)
    requires batch <= left && |batch| == Min(batchSize, |left|)
    ensures Progress(waiting, batches + [batch], batchSize, left - batch, |batch| == batchSize)
    ensures |left - batch| == |left| - |batch|
  {
    var all := batches + [batch];
    assert all[..|all| - 1] == batches;
    UnionSize(left - batch, batch);
    assert left == (left - batch) + batch;
    SubsetSize(batch, left);
    CountPass(|waiting|, |batches|, batchSize, |left|, |batch|);
  }

  lemma CountPass(n: nat, passes: nat, batchSize: nat, left: nat, batch: nat)
    requires batchSize > 0 && n == passes * batchSize + left && batch == Min(batchSize, left)
    ensures batch == batchSize ==> n == (passes + 1) * batchSize + (left - batch)
    ensures batch < batchSize ==> left == batch && n / batchSize == passes
  {
    if batch < batchSize {
      QuotientIs(n, passes, batchSize, left);
    } else {
      Distribute(batchSize, passes, 1);
    }
  }

  lemma QuotientIs(n: nat, q: nat, d: nat, r: nat)
    requires n == q * d + r && r < d
    ensures n / d == q
  {
    var e := n / d - q;
    assert n == (n / d) * d + n % d;
    assert e * d == (n / d) * d - q * d;
    if e >= 1 { Scale(1, e, d); assert false; }
    if e <= -1 { Scale(e, -1, d); assert false; }
  }

  /** A claimed batch, seen from the backlog. */
  lemma ClaimedBatch(rows: map<Id, Row>, claimed: map<Id, Row>, reqs: seq<Request>, limit: nat, now: Time,
          visibility: Duration)
    requires 0 <= visibility && IsBatch(rows, claimed, reqs, limit, now, now - visibility)
    ensures var batch := Elements(Ids(reqs));
            && batch <= Backlog(rows, now, visibility)
                 && |batch| == |reqs| == Min(limit, |Backlog(rows, now, visibility)|)
            && Backlog(claimed, now, visibility) == Backlog(rows, now, visibility) - batch
            && claimed == ClaimRows(rows, batch, now)
            && StillClaimed(claimed, reqs, 0, now)
    ensures Distinct(reqs)
  {
    var batch := Elements(Ids(reqs));
    ElementsSize(rows, Ids(reqs));
    ClaimShrinksBacklog(rows, batch, now, visibility);
    forall i | 0 <= i < |reqs| ensures reqs[i].id in batch { assert Ids(reqs)[i] == reqs[i].id; }
    DistinctIds(rows, reqs);
  }

  /** From the i-th on, the batch is as it was claimed. */
  predicate StillClaimed(rows: map<Id, Row>, claimed: seq<Request>, i: nat, now: Time) {
    forall j | i <= j < |claimed| :: JustClaimed(rows, claimed[j].id, now)
  }

  predicate Distinct(claimed: seq<Request>) {
    forall i, j | 0 <= i < j < |claimed| :: claimed[i].id != claimed[j].id
  }

  /** Settling one row of the batch leaves the rest claimed. */
  lemma OneSettled(rows: map<Id, Row>, before: map<Id, Row>, after: map<Id, Row>, claimed: seq<Request>, i: nat,
          now: Time)
    requires i < |claimed| && Distinct(claimed) && StillClaimed(before, claimed, i, now)
    requires ClaimKept(rows, before, Elements(Ids(claimed))) && ClaimKept(before, after, {claimed[i].id})
    ensures StillClaimed(after, claimed, i + 1, now) && ClaimKept(rows, after, Elements(Ids(claimed)))
  {
    assert Ids(claimed)[i] in Elements(Ids(claimed));
    ClaimKeptOnce(rows, before, after, Elements(Ids(claimed)), claimed[i].id);
    forall j | i + 1 <= j < |claimed| ensures JustClaimed(after, claimed[j].id, now) {
      assert JustClaimed(before, claimed[j].id, now) && claimed[i].id != claimed[j].id;
    }
  }

  lemma DistinctIds(rows: map<Id, Row>, reqs: seq<Request>)
    requires Ordered(rows, Ids(reqs))
    ensures forall i, j | 0 <= i < j < |reqs| :: reqs[i].id != reqs[j].id
  {
    var ids := Ids(reqs);
    forall i, j | 0 <= i < j < |reqs| ensures reqs[i].id != reqs[j].id {
      assert Precedes(rows, ids[i], ids[j]);
    }
  }
}

module DispatcherObject {
  import opened Domain
  import opened Queue
  import opened Claims
  import opened Policy
  import opened Backoff
  import opened Drain
  import opened MemoryRepository
  import opened WorkerObject

  class Dispatcher {
    const worker: Worker
    const batchSize: nat
    const visibilityTimeout: Duration

    constructor (worker: Worker, batchSize: nat, visibilityTimeout: Duration)
      ensures this.worker == worker && this.batchSize == batchSize && this.visibilityTimeout == visibilityTimeout
    {
      this.worker, this.batchSize, this.visibilityTimeout := worker, batchSize, visibilityTimeout;
    }

    ghost predicate Valid()
      reads worker.repo, worker.repo.records.Values, worker.limiter
    {
      worker.Valid() && batchSize > 0 && 0 <= visibilityTimeout && Defers(worker.cfg)
    }

    ghost function Waiting(now: Time): set<Id>
      reads worker.repo, worker.repo.records.Values
    {
      Backlog(worker.repo.Rows(), now, visibilityTimeout)
    }

    /** One pass at a frozen clock: claim a batch and process each row. */
    method ClaimAndDispatch(now: Time, envs: Id -> Env) returns (full: bool, ghost batch: set<Id>)
      requires Valid() && Frozen(envs, now) && Calm(worker.limiter.Value(), now)
      modifies worker.repo`quotes, worker.repo`nextQuoteId, worker.repo.records.Values, worker.limiter,
          worker.limiter.buffer
      ensures Valid() && worker.repo.records == old(worker.repo.records)
      ensures Calm(worker.limiter.Value(), now)
      ensures (worker.limiter.buffer == old(worker.limiter.buffer) || fresh(worker.limiter.buffer))
      ensures batch <= old(Waiting(now)) && |batch| == Min(batchSize, |old(Waiting(now))|)
      ensures full <==> |batch| == batchSize
      ensures Waiting(now) == old(Waiting(now)) - batch
      ensures ClaimedOnce(old(worker.repo.Rows()), worker.repo.Rows(), batch, now)
    {
      ghost var rows := worker.repo.Rows();
      var claimed := ClaimBatch(now);
      batch := Elements(Ids(claimed));
      ProcessAll(claimed, envs, now);
      ClaimThenKeep(rows, batch, now, worker.repo.Rows());
      full := |claimed| == batchSize;
    }

    method ClaimBatch(now: Time) returns (claimed: seq<Request>)
      requires Valid()
      modifies worker.repo.records.Values
      ensures Valid() && unchanged(worker.repo)
      ensures var batch := Elements(Ids(claimed));
              && batch <= old(Waiting(now)) && |batch| == |claimed| == Min(batchSize, |old(Waiting(now))|)
              && Waiting(now) == old(Waiting(now)) - batch
              && worker.repo.Rows() == ClaimRows(old(worker.repo.Rows()), batch, now)
      ensures StillClaimed(worker.repo.Rows(), claimed, 0, now) && Distinct(claimed)
    {
      ghost var rows := worker.repo.Rows();
      claimed := worker.repo.ClaimBatch(batchSize, now, now - visibilityTimeout);
      ghost var after := worker.repo.Rows();
      ClaimedBatch(rows, after, claimed, batchSize, now, visibilityTimeout);
      assert Waiting(now) == Backlog(after, now, visibilityTimeout);
    }

    method ProcessAll(claimed: seq<Request>, envs: Id -> Env, now: Time)
      requires Valid() && Frozen(envs, now) && Calm(worker.limiter.Value(), now)
      requires StillClaimed(worker.repo.Rows(), claimed, 0, now) && Distinct(claimed)
      modifies worker.repo`quotes, worker.repo`nextQuoteId, worker.repo.records.Values, worker.limiter,
          worker.limiter.buffer
      ensures Valid() && worker.repo.records == old(worker.repo.records)
      ensures Calm(worker.limiter.Value(), now)
      ensures (worker.limiter.buffer == old(worker.limiter.buffer) || fresh(worker.limiter.buffer))
      ensures Waiting(now) == old(Waiting(now))
      ensures ClaimKept(old(worker.repo.Rows()), worker.repo.Rows(), Elements(Ids(claimed)))
    {
      ghost var rows, batch := worker.repo.Rows(), Elements(Ids(claimed));
      for i := 0 to |claimed|
        invariant Valid() && worker.repo.records == old(worker.repo.records)
        invariant Calm(worker.limiter.Value(), now)
        invariant worker.limiter.buffer == old(worker.limiter.buffer) || fresh(worker.limiter.buffer)
        invariant Waiting(now) == old(Waiting(now))
        invariant ClaimKept(rows, worker.repo.Rows(), batch)
        invariant StillClaimed(worker.repo.Rows(), claimed, i, now)
      {
        ghost var before := worker.repo.Rows();
        ProcessOne(claimed[i], envs(claimed[i].id), now);
        OneSettled(rows, before, worker.repo.Rows(), claimed, i, now);
      }
    }

    /** A report is logged, never propagated: the row is out of the backlog either way. */
    method ProcessOne(req: Request, env: Env, now: Time)
      requires Valid() && FrozenEnv(env, now) && Calm(worker.limiter.Value(), now)
      requires JustClaimed(worker.repo.Rows(), req.id, now)
      modifies worker.repo`quotes, worker.repo`nextQuoteId, worker.repo.records.Values, worker.limiter,
          worker.limiter.buffer
      ensures Valid() && worker.repo.records == old(worker.repo.records)
      ensures Calm(worker.limiter.Value(), now)
      ensures (worker.limiter.buffer == old(worker.limiter.buffer) || fresh(worker.limiter.buffer))
      ensures Waiting(now) == old(Waiting(now))
      ensures ClaimKept(old(worker.repo.Rows()), worker.repo.Rows(), {req.id})
    {
      ghost var s := worker.repo.Value();
      ghost var resolution := Policy.Fetch(s.quotes, Latest(s.quotes, req.pair), worker.limiter.limits,
          worker.limiter.Value(), worker.provider, env).1;
      SettleKeepsBacklog(worker.cfg, s, req, resolution, env, visibilityTimeout);
      FetchIsTame(s.quotes, Latest(s.quotes, req.pair), worker.limiter.limits, worker.limiter.Value(), worker.provider,
          env, now);
      NeverDueAtOnce(worker.cfg, req, resolution, env);
      SettleKeepsClaim(worker.cfg, s, req, resolution, env);
      var report := worker.Process(req, env);
    }

    /** One trigger: passes run while they come back full. With n rows waiting
        this is exactly n / batchSize + 1 passes; each waiting row is in the
        batch of exactly one of them and was claimed once, and no other row
        was touched. */
    method DrainOnTrigger(now: Time, envs: nat -> Id -> Env) returns (passes: nat, ghost batches: seq<set<Id>>)
      requires Valid() && Calm(worker.limiter.Value(), now) && forall n: nat :: Frozen(envs(n), now)
      modifies worker.repo`quotes, worker.repo`nextQuoteId, worker.repo.records.Values, worker.limiter,
          worker.limiter.buffer
      ensures Valid() && Waiting(now) == {}
      ensures passes == |old(Waiting(now))| / batchSize + 1
      ensures |batches| == passes && Disjoint(batches) && Union(batches) == old(Waiting(now))
      ensures ClaimedOnce(old(worker.repo.Rows()), worker.repo.Rows(), old(Waiting(now)), now)
    {
      passes, batches := 0, [];
      var full := true;
      ghost var waiting, rows := Waiting(now), worker.repo.Rows();
      while full
        invariant Valid() && worker.repo.records == old(worker.repo.records)
        invariant Calm(worker.limiter.Value(), now)
        invariant worker.limiter.buffer == old(worker.limiter.buffer) || fresh(worker.limiter.buffer)
        invariant |batches| == passes
        invariant DrainedSoFar(waiting, rows, batches, batchSize, now, Waiting(now), worker.repo.Rows(), full)
        decreases full, |Waiting(now)|
      {
        ghost var left, before := Waiting(now), worker.repo.Rows();
        ghost var batch;
        full, batch := ClaimAndDispatch(now, envs(passes));
        PassDrains(waiting, rows, batches, batchSize, now, left, before, batch, worker.repo.Rows());
        passes, batches := passes + 1, batches + [batch];
      }
      AllDrained(waiting, rows, batches, batchSize, now, Waiting(now), worker.repo.Rows());
    }
  }
}
