/** Many replicas on one queue: passes with deadlines, claims that are leases,
    results recorded or lost, rows reclaimed, while one clock advances. */
module Protocol {
  import opened Wrappers
  import opened Domain
  import opened Queue
  import opened Policy
  import opened Backoff

  type Replica = int

  datatype Settings = Settings(visibility: Duration, passTimeout: Duration, worker: Config)

  /** A pass: its context's deadline, then the clock reading its claim uses. */
  datatype Pass = Pass(deadline: Time, now: Option<Time>)

  datatype Work = Working | Resolved(resolution: Resolution, at: Time)

  /** One claim of one row: the worker's snapshot and the pass deadline it works under. */
  datatype Lease = Lease(req: Request, deadline: Time, work: Work)

  /** History kept for the proof, one per row ever claimed: the latest lease,
      how often the row was claimed and reclaimed, and what each reclaim found:
      a claim that had returned an unclassified error, or one that left
      nothing behind (crash, panic, failed or overdue write). A setback is a
      claim whose pass read the clock before the row's last lock: a deferral
      that overflowed makes the row due that early. */
  datatype Ledger = Ledger(latest: nat, firsts: nat, reclaims: nat, returned: nat, unrecorded: nat, setbacks: nat,
      hasReturned: bool)

  datatype State = State(clock: Time, store: Store, passes: map<Replica, Pass>,
                         leases: map<nat, Lease>, nextLease: nat, ledgers: map<Id, Ledger>)

  datatype Step =
    | Tick(d: Duration)
    | ClientSubmit(req: Request, key: string)
    | OpenPass(r: Replica)
    | ReadClock(r: Replica)
    | ClaimRow(r: Replica, id: Id)
    | Resolve(n: nat, resolution: Resolution)
    | Write(n: nat, jitter: Jitter)
    | GiveBack(n: nat)
    | Vanish(n: nat)

  function Init(start: Time): State {
    State(start, EMPTY, map[], map[], 1, map[])
  }

  function LeaseCompletion(cfg: Settings, lease: Lease, jitter: Jitter): Option<Op>
    requires lease.work.Resolved?
  {
    Completion(cfg.worker, lease.req, lease.work.resolution, lease.work.at, jitter)
  }

  /** Storage accepts a statement only while the pass's context is alive. */
  predicate Enabled(cfg: Settings, s: State, step: Step) {
    match step
    case Tick(d) => d > 0
    case ClientSubmit(req, key) => req.createdAt <= s.clock && Possible(s.store, Submit(req, key))
    case OpenPass(_) => true
    case ReadClock(r) => r in s.passes && s.passes[r].now.None?
    case ClaimRow(r, id) =>
      && r in s.passes && s.passes[r].now.Some? && s.clock <= s.passes[r].deadline
      && id in s.store.rows && Eligible(s.store.rows[id], s.passes[r].now.value, s.passes[r].now.value - cfg.visibility)
    case Resolve(n, resolution) =>
      n in s.leases && s.leases[n].work.Working? && !resolution.Panicked?
          && Sound(s.store, s.leases[n].req.pair, resolution)
    case Write(n, jitter) =>
      && n in s.leases && s.leases[n].work.Resolved? && IsJitter(jitter)
      && LeaseCompletion(cfg, s.leases[n], jitter).Some? && s.clock <= s.leases[n].deadline
    case GiveBack(n) =>
      n in s.leases && s.leases[n].work.Resolved? && LeaseCompletion(cfg, s.leases[n], UNIT).None?
    case Vanish(n) => n in s.leases
  }

  function ClaimLedger(s: State, id: Id, now: Time): Ledger
    requires id in s.store.rows
  {
    var before := if id in s.ledgers then s.ledgers[id] else Ledger(0, 0, 0, 0, 0, 0, false);
    if s.store.rows[id].req.status.Pending? then
      before.(latest := s.nextLease, firsts := before.firsts + 1, hasReturned := false,
              setbacks := before.setbacks + if id in s.ledgers && now < s.store.rows[id].lockedAt then 1 else 0)
    else if before.hasReturned then before.(latest := s.nextLease, reclaims := before.reclaims + 1,
        returned := before.returned + 1, hasReturned := false)
    else before.(latest := s.nextLease, reclaims := before.reclaims + 1, unrecorded := before.unrecorded + 1)
  }

  ghost function Next(cfg: Settings, s: State, step: Step): State
    requires Enabled(cfg, s, step)
  {
    match step
    case Tick(d) => s.(clock := s.clock + d)
    case ClientSubmit(req, key) => s.(store := Apply(s.store, Submit(req, key)).0)
    case OpenPass(r) => s.(passes := s.passes[r := Pass(s.clock + cfg.passTimeout, None)])
    case ReadClock(r) => s.(passes := s.passes[r := s.passes[r].(now := Some(s.clock))])
    case ClaimRow(r, id) =>
      var now := s.passes[r].now.value;
      var store := Apply(s.store, Claim({id}, now, now - cfg.visibility)).0;
      s.(store := store,
         leases := s.leases[s.nextLease := Lease(store.rows[id].req, s.passes[r].deadline, Working)],
         nextLease := s.nextLease + 1,
         ledgers := s.ledgers[id := ClaimLedger(s, id, now)])
    case Resolve(n, resolution) => s.(leases := s.leases[n := s.leases[n].(work := Resolved(resolution, s.clock))])
    case Write(n, jitter) =>
      s.(store := Apply(s.store, LeaseCompletion(cfg, s.leases[n], jitter).value).0, leases := s.leases - {n})
    case GiveBack(n) =>
      var id := s.leases[n].req.id;
      s.(leases := s.leases - {n},
         ledgers := if id in s.ledgers && s.ledgers[id].latest == n
             then s.ledgers[id := s.ledgers[id].(hasReturned := true)] else s.ledgers)
    case Vanish(n) => s.(leases := s.leases - {n})
  }

  ghost predicate Runs(cfg: Settings, start: Time, steps: seq<Step>)
    decreases |steps|, 0
  {
    steps == [] ||
    (Runs(cfg, start, steps[..|steps| - 1])
     && Enabled(cfg, After(cfg, start, steps[..|steps| - 1]), steps[|steps| - 1]))
  }

  ghost function After(cfg: Settings, start: Time, steps: seq<Step>): State
    requires Runs(cfg, start, steps)
    decreases |steps|, 1
  {
    if steps == [] then Init(start)
    else Next(cfg, After(cfg, start, steps[..|steps| - 1]), steps[|steps| - 1])
  }

  /** A claim of a batch is claims of its rows one by one, in any order: no
      claim makes another row of the batch eligible or not. */
  lemma BatchIsRowByRow(s: Store, chosen: set<Id>, one: Id, now: Time, visibleSince: Time)
    requires Possible(s, Claim(chosen, now, visibleSince)) && one in chosen
    ensures var first := Apply(s, Claim({one}, now, visibleSince)).0;
            && Possible(s, Claim({one}, now, visibleSince))
            && Possible(first, Claim(chosen - {one}, now, visibleSince))
            && Apply(first, Claim(chosen - {one}, now, visibleSince)).0 == Apply(s, Claim(chosen, now, visibleSince)).0
  {
    var first := Apply(s, Claim({one}, now, visibleSince)).0;
    forall id | id in chosen - {one} ensures id in Candidates(first.rows, now, visibleSince) {
      assert id in Candidates(s.rows, now, visibleSince);
    }
  }

  // ------------------------------------------------------- lease exclusivity

  /** The rule the configuration enforces, and the sanity of the rest. */
  predicate Configured(cfg: Settings) {
    && 0 <= cfg.passTimeout <= cfg.visibility
    && ValidBackoff(cfg.worker.baseBackoff, cfg.worker.maxBackoff)
    && 1 <= cfg.worker.maxAttempts && 0 < cfg.worker.maxLifetime
  }

  predicate PassOk(cfg: Settings, s: State, r: Replica)
    requires r in s.passes
  {
    var read := if s.passes[r].now.Some? then s.passes[r].now.value else s.clock;
    read <= s.clock && s.passes[r].deadline <= read + cfg.passTimeout
  }

  /** A lease whose deadline has not passed is the row's latest, and the
      latest lease, expired or not, still sees its row as it claimed it. */
  predicate LeaseOk(cfg: Settings, s: State, n: nat)
    requires n in s.leases
  {
    var lease := s.leases[n];
    var id := lease.req.id;
    && n < s.nextLease && id in s.store.rows && id in s.ledgers
    && lease.req.pair == s.store.rows[id].req.pair
    && (lease.work.Resolved? ==>
         Sound(s.store, lease.req.pair, lease.work.resolution) && !lease.work.resolution.Panicked?)
    && (s.clock <= lease.deadline ==> s.ledgers[id].latest == n)
    && (s.ledgers[id].latest == n ==>
          && s.store.rows[id].req == lease.req && lease.req.status.InProgress?
          && lease.deadline <= s.store.rows[id].lockedAt + cfg.visibility
          && (lease.work.Resolved? ==> s.store.rows[id].lockedAt <= lease.work.at <= s.clock))
  }

  predicate LedgerOk(s: State, id: Id)
    requires id in s.store.rows
  {
    && (s.store.rows[id].req.status.InProgress? ==> id in s.ledgers && s.store.rows[id].lockedAt <= s.clock)
    && (id in s.ledgers ==> 1 <= s.ledgers[id].latest < s.nextLease)
  }

  predicate Exclusive(cfg: Settings, s: State) {
    && Consistent(s.store) && 1 <= s.nextLease
    && (forall r | r in s.passes :: PassOk(cfg, s, r))
    && (forall n | n in s.leases :: LeaseOk(cfg, s, n))
    && (forall id | id in s.store.rows :: LedgerOk(s, id))
    && (forall id | id in s.ledgers :: id in s.store.rows)
  }

  /** Every step acts on the store as an operation of a client or a worker. */
  function StoreOp(cfg: Settings, s: State, step: Step): Option<Op>
    requires Enabled(cfg, s, step)
  {
    match step
    case ClientSubmit(req, key) => Some(Submit(req, key))
    case ClaimRow(r, id) => Some(Claim({id}, s.passes[r].now.value, s.passes[r].now.value - cfg.visibility))
    case Write(n, jitter) => LeaseCompletion(cfg, s.leases[n], jitter)
    case _ => None
  }

  lemma StepIsStoreOp(cfg: Settings, s: State, step: Step)
    requires Enabled(cfg, s, step) && Exclusive(cfg, s)
    ensures var op := StoreOp(cfg, s, step);
            var t := Next(cfg, s, step).store;
            && (op.None? ==> t == s.store)
            && (op.Some? ==>
                 t == Apply(s.store, op.value).0 && Possible(s.store, op.value) && FromWorker(s.store, op.value))
            && Consistent(t) && Grown(s.store, t)
            && forall id :: RowContinues(s.store, t, id)
  {
    var op := StoreOp(cfg, s, step);
    if step.Write? {
      var lease := s.leases[step.n];
      assert LeaseOk(cfg, s, step.n);
      assert RowOk(s.store, lease.req.id);
      CompletionIsFromWorker(cfg.worker, s.store, lease.req, lease.work.resolution, lease.work.at, step.jitter);
    }
    if op.Some? {
      StepKeeps(s.store, op.value);
      forall id ensures RowContinues(s.store, Next(cfg, s, step).store, id) { StepContinues(s.store, op.value, id); }
    }
  }

  /** What a step does to a row it is not about: nothing. */
  lemma OtherRows(cfg: Settings, s: State, step: Step, id: Id)
    requires Enabled(cfg, s, step) && id in s.store.rows
    requires step.ClaimRow? ==> id != step.id
    requires step.Write? ==> id != s.leases[step.n].req.id
    ensures id in Next(cfg, s, step).store.rows && Next(cfg, s, step).store.rows[id] == s.store.rows[id]
  {}

  /** A claim ends any older lease on its row, which by then has expired, and
      starts a good one. */
  lemma LeaseKeptByClaim(cfg: Settings, s: State, r: Replica, id: Id, m: nat)
    requires Configured(cfg) && Enabled(cfg, s, ClaimRow(r, id)) && Exclusive(cfg, s)
    requires m in Next(cfg, s, ClaimRow(r, id)).leases
    ensures LeaseOk(cfg, Next(cfg, s, ClaimRow(r, id)), m)
  {
    assert PassOk(cfg, s, r) && RowOk(s.store, id);
    if m in s.leases {
      assert LeaseOk(cfg, s, m);
    }
  }

  lemma LeaseKeptByWrite(cfg: Settings, s: State, n: nat, jitter: Jitter, m: nat)
    requires Configured(cfg) && Enabled(cfg, s, Write(n, jitter)) && Exclusive(cfg, s)
    requires m in Next(cfg, s, Write(n, jitter)).leases
    ensures LeaseOk(cfg, Next(cfg, s, Write(n, jitter)), m)
  {
    StepIsStoreOp(cfg, s, Write(n, jitter));
    var t := Next(cfg, s, Write(n, jitter));
    var id := s.leases[m].req.id;
    assert LeaseOk(cfg, s, n) && LeaseOk(cfg, s, m);
    assert RowContinues(s.store, t.store, id);
    if id != s.leases[n].req.id { OtherRows(cfg, s, Write(n, jitter), id); }
  }

  lemma LeaseKeptByResolve(cfg: Settings, s: State, n: nat, resolution: Resolution, m: nat)
    requires Enabled(cfg, s, Resolve(n, resolution)) && Exclusive(cfg, s) && m in s.leases
    ensures LeaseOk(cfg, Next(cfg, s, Resolve(n, resolution)), m)
  {
    assert LeaseOk(cfg, s, m);
    assert LedgerOk(s, s.leases[m].req.id);
  }

  lemma LeaseKeptByGiveBack(cfg: Settings, s: State, n: nat, m: nat)
    requires Enabled(cfg, s, GiveBack(n)) && Exclusive(cfg, s) && m in s.leases && m != n
    ensures LeaseOk(cfg, Next(cfg, s, GiveBack(n)), m)
  {
    assert LeaseOk(cfg, s, m);
  }

  lemma LeaseKeptBySubmit(cfg: Settings, s: State, req: Request, key: string, m: nat)
    requires Enabled(cfg, s, ClientSubmit(req, key)) && Exclusive(cfg, s) && m in s.leases
    ensures LeaseOk(cfg, Next(cfg, s, ClientSubmit(req, key)), m)
  {
    assert LeaseOk(cfg, s, m);
  }

  lemma LeaseKept(cfg: Settings, s: State, step: Step, m: nat)
    requires Configured(cfg) && Enabled(cfg, s, step) && Exclusive(cfg, s) && m in Next(cfg, s, step).leases
    ensures LeaseOk(cfg, Next(cfg, s, step), m)
  {
    match step
    case ClaimRow(r, id) => LeaseKeptByClaim(cfg, s, r, id, m);
    case Write(n, jitter) => LeaseKeptByWrite(cfg, s, n, jitter, m);
    case Resolve(n, resolution) => LeaseKeptByResolve(cfg, s, n, resolution, m);
    case GiveBack(n) => LeaseKeptByGiveBack(cfg, s, n, m);
    case ClientSubmit(req, key) => LeaseKeptBySubmit(cfg, s, req, key, m);
    case _ => assert LeaseOk(cfg, s, m);
  }

  lemma StepKeepsExclusive(cfg: Settings, s: State, step: Step)
    requires Configured(cfg) && Enabled(cfg, s, step) && Exclusive(cfg, s)
    ensures Exclusive(cfg, Next(cfg, s, step))
  {
    StepIsStoreOp(cfg, s, step);
    var t := Next(cfg, s, step);
    forall r | r in t.passes ensures PassOk(cfg, t, r) { assert r in s.passes ==> PassOk(cfg, s, r); }
    forall n | n in t.leases ensures LeaseOk(cfg, t, n) { LeaseKept(cfg, s, step, n); }
    forall id | id in t.store.rows ensures LedgerOk(t, id) { LedgerKept(cfg, s, step, id); }
    forall id | id in t.ledgers ensures id in t.store.rows {
      if id in s.store.rows { assert RowContinues(s.store, t.store, id); }
    }
  }

  lemma LedgerKeptByClaim(cfg: Settings, s: State, r: Replica, claimed: Id, id: Id)
    requires Configured(cfg) && Enabled(cfg, s, ClaimRow(r, claimed)) && Exclusive(cfg, s) && id in s.store.rows
    ensures LedgerOk(Next(cfg, s, ClaimRow(r, claimed)), id)
  {
    assert LedgerOk(s, id) && PassOk(cfg, s, r);
  }

  lemma LedgerKeptByWrite(cfg: Settings, s: State, n: nat, jitter: Jitter, id: Id)
    requires Configured(cfg) && Enabled(cfg, s, Write(n, jitter)) && Exclusive(cfg, s) && id in s.store.rows
    ensures LedgerOk(Next(cfg, s, Write(n, jitter)), id)
  {
    assert LedgerOk(s, id) && LeaseOk(cfg, s, n);
  }

  lemma LedgerKeptBySubmit(cfg: Settings, s: State, req: Request, key: string, id: Id)
    requires Enabled(cfg, s, ClientSubmit(req, key)) && Exclusive(cfg, s)
    requires id in Next(cfg, s, ClientSubmit(req, key)).store.rows
    ensures LedgerOk(Next(cfg, s, ClientSubmit(req, key)), id)
  {
    assert if id in s.store.rows then LedgerOk(s, id) else id !in s.ledgers;
  }

  lemma LedgerKeptByGiveBack(cfg: Settings, s: State, n: nat, id: Id)
    requires Enabled(cfg, s, GiveBack(n)) && Exclusive(cfg, s) && id in s.store.rows
    ensures LedgerOk(Next(cfg, s, GiveBack(n)), id)
  {
    assert LedgerOk(s, id);
  }

  lemma LedgerKept(cfg: Settings, s: State, step: Step, id: Id)
    requires Configured(cfg) && Enabled(cfg, s, step) && Exclusive(cfg, s) && id in Next(cfg, s, step).store.rows
    ensures LedgerOk(Next(cfg, s, step), id)
  {
    match step
    case ClaimRow(r, claimed) => LedgerKeptByClaim(cfg, s, r, claimed, id);
    case Write(n, jitter) => LedgerKeptByWrite(cfg, s, n, jitter, id);
    case ClientSubmit(req, key) => LedgerKeptBySubmit(cfg, s, req, key, id);
    case GiveBack(n) => LedgerKeptByGiveBack(cfg, s, n, id);
    case _ => assert LedgerOk(s, id);
  }

  lemma {:induction false} AlwaysExclusive(cfg: Settings, start: Time, steps: seq<Step>)
    requires Configured(cfg) && Runs(cfg, start, steps)
    ensures Exclusive(cfg, After(cfg, start, steps))
    decreases |steps|
  {
    if steps == [] {
    } else {
      AlwaysExclusive(cfg, start, steps[..|steps| - 1]);
      StepKeepsExclusive(cfg, After(cfg, start, steps[..|steps| - 1]), steps[|steps| - 1]);
    }
  }

  /** Every write storage accepts comes from the row's latest claimant, finds
      the row exactly as that claimant saw it, and takes effect. */
  lemma WritesAreTheHolders(cfg: Settings, start: Time, steps: seq<Step>, n: nat, jitter: Jitter)
    requires Configured(cfg) && Runs(cfg, start, steps)
    requires Enabled(cfg, After(cfg, start, steps), Write(n, jitter))
    ensures var s := After(cfg, start, steps);
            var req := s.leases[n].req;
            && req.id in s.ledgers && s.ledgers[req.id].latest == n
            && req.id in s.store.rows && s.store.rows[req.id].req == req && req.status.InProgress?
            && Apply(s.store, LeaseCompletion(cfg, s.leases[n], jitter).value).1.Done?
  {
    AlwaysExclusive(cfg, start, steps);
    assert LeaseOk(cfg, After(cfg, start, steps), n);
  }

  // ------------------------------------------------- the rule is exactly right

  predicate HolderWrites(s: State, n: nat) {
    n in s.leases && s.leases[n].req.id in s.ledgers && s.ledgers[s.leases[n].req.id].latest == n
  }

  /** Storage accepts this write, and it takes effect. */
  ghost predicate WriteTakesEffect(cfg: Settings, s: State, n: nat, jitter: Jitter) {
    Enabled(cfg, s, Write(n, jitter)) && Apply(s.store, LeaseCompletion(cfg, s.leases[n], jitter).value).1.Done?
  }

  /** In no run does a write by anyone but the row's latest claimant take effect. */
  ghost predicate LeaseSafe(cfg: Settings, start: Time) {
    forall steps: seq<Step>, n: nat, jitter: Jitter |
      Runs(cfg, start, steps) && WriteTakesEffect(cfg, After(cfg, start, steps), n, jitter) ::
      HolderWrites(After(cfg, start, steps), n)
  }

  lemma Extend(cfg: Settings, start: Time, steps: seq<Step>, step: Step)
    requires Runs(cfg, start, steps) && Enabled(cfg, After(cfg, start, steps), step)
    ensures Runs(cfg, start, steps + [step])
    ensures After(cfg, start, steps + [step]) == Next(cfg, After(cfg, start, steps), step)
  {
    assert (steps + [step])[..|steps|] == steps;
  }

  /** Replica r opens a pass and claims row 7 at once. */
  lemma ClaimSeven(cfg: Settings, start: Time, before: seq<Step>, r: Replica) returns (steps: seq<Step>)
    requires Runs(cfg, start, before) && 0 <= cfg.passTimeout
    requires var s := After(cfg, start, before);
             7 in s.store.rows && s.store.rows[7].req.id == 7
                 && Eligible(s.store.rows[7], s.clock, s.clock - cfg.visibility)
    ensures Runs(cfg, start, steps)
    ensures var s, t := After(cfg, start, before), After(cfg, start, steps);
            && t.clock == s.clock && t.nextLease == s.nextLease + 1
            && 7 in t.store.rows && t.store.rows[7] == ClaimedRow(s.store.rows[7], s.clock)
            && t.leases == s.leases[s.nextLease := Lease(t.store.rows[7].req, s.clock + cfg.passTimeout, Working)]
            && 7 in t.ledgers && t.ledgers[7].latest == s.nextLease
  {
    steps := before;
    Extend(cfg, start, steps, OpenPass(r));
    steps := steps + [OpenPass(r)];
    Extend(cfg, start, steps, ReadClock(r));
    steps := steps + [ReadClock(r)];
    Extend(cfg, start, steps, ClaimRow(r, 7));
    steps := steps + [ClaimRow(r, 7)];
  }

  /** One row, claimed, left for the visibility timeout and reclaimed. */
  lemma ReclaimRun(cfg: Settings, start: Time) returns (steps: seq<Step>)
    requires 0 <= cfg.visibility < cfg.passTimeout
    ensures Runs(cfg, start, steps)
    ensures var s := After(cfg, start, steps);
            && s.clock == start + cfg.visibility + 1
            && 1 in s.leases && s.leases[1].work.Working? && s.leases[1].deadline == start + cfg.passTimeout
            && s.leases[1].req.id == 7 && 7 in s.ledgers && s.ledgers[7].latest == 2 && 2 in s.leases
                 && s.leases[2].req.id == 7
            && 7 in s.store.rows && s.store.rows[7].req.status.InProgress?
  {
    var req := NewRequest(7, Pair("EUR", "MXN"), start);
    Extend(cfg, start, [], ClientSubmit(req, ""));
    steps := ClaimSeven(cfg, start, [] + [ClientSubmit(req, "")], 0);
    Extend(cfg, start, steps, Tick(cfg.visibility + 1));
    steps := ClaimSeven(cfg, start, steps + [Tick(cfg.visibility + 1)], 1);
  }

  /** With a visibility timeout below the pass timeout, the write of a worker
      whose row was reclaimed can still take effect: here it fails the row
      under its latest claimant. */
  lemma ShortVisibilityBreaksLeases(cfg: Settings, start: Time) returns (steps: seq<Step>)
    requires 0 <= cfg.visibility < cfg.passTimeout
    ensures Runs(cfg, start, steps) && WriteTakesEffect(cfg, After(cfg, start, steps), 1, UNIT)
    ensures !HolderWrites(After(cfg, start, steps), 1)
    ensures var t := Next(cfg, After(cfg, start, steps), Write(1, UNIT));
            7 in t.store.rows && t.store.rows[7].req.status.Failed? && 2 in t.leases && t.leases[2].req.id == 7
  {
    steps := ReclaimRun(cfg, start);
    var gone := Failing(Classified(RateError(UnsupportedPair, "no rate", false, 0, "")));
    Extend(cfg, start, steps, Resolve(1, gone));
    steps := steps + [Resolve(1, gone)];
  }

  /** The configuration rule visibility >= pass timeout is exactly what makes
      leases safe, over all runs of any number of replicas. */
  lemma LeaseSafeIff(cfg: Settings, start: Time)
    requires 0 <= cfg.passTimeout && 0 <= cfg.visibility
    requires Configured(cfg.(visibility := if cfg.passTimeout > cfg.visibility then cfg.passTimeout
            else cfg.visibility))
    ensures LeaseSafe(cfg, start) <==> cfg.passTimeout <= cfg.visibility
  {
    if cfg.passTimeout <= cfg.visibility {
      forall steps: seq<Step>, n: nat, jitter: Jitter |
        Runs(cfg, start, steps) && WriteTakesEffect(cfg, After(cfg, start, steps), n, jitter)
        ensures HolderWrites(After(cfg, start, steps), n)
      {
        WritesAreTheHolders(cfg, start, steps, n, jitter);
      }
    } else {
      var steps := ShortVisibilityBreaksLeases(cfg, start);
    }
  }

  // --------------------------------------------------- budgets and total work

  function CeilDiv(a: int, b: int): int
    requires 0 < b
  {
    (a + b - 1) / b
  }

  /** Reclaims that find a returned error are more than a visibility timeout
      apart and all begin within the row's lifetime. */
  function MaxReturned(cfg: Settings): int
    requires 0 <= cfg.visibility
  {
    CeilDiv(cfg.worker.maxLifetime, cfg.visibility + 1)
  }

  predicate RowBudget(cfg: Settings, s: State, id: Id)
    requires id in s.store.rows && 0 <= cfg.visibility
  {
    var row := s.store.rows[id];
    var attempts := row.req.attempts;
    && 0 <= attempts <= cfg.worker.maxAttempts
    && (row.req.status.Pending? ==> attempts < cfg.worker.maxAttempts)
    && (!row.req.status.Pending? ==> 1 <= attempts)
    && (row.req.status.Failed? ==> WorkerCode(row.req.errorCode))
    && (id !in s.ledgers ==> attempts == 0 && row.req.status.Pending? && row.nextAttemptAt == row.req.createdAt)
    && (id in s.ledgers ==> LedgerBudget(cfg, row, s.ledgers[id]) && row.lockedAt <= s.clock)
  }

  /** The row's lock has moved on by more than the visibility timeout for each
      returned error found, less one such step at most for each setback. */
  predicate LedgerBudget(cfg: Settings, row: Row, ledger: Ledger)
    requires 0 <= cfg.visibility
  {
    && ledger.firsts == row.req.attempts
    && ledger.reclaims == ledger.returned + ledger.unrecorded
    && ledger.setbacks < ledger.firsts
    && ledger.returned - ledger.setbacks <= MaxReturned(cfg)
    && (ledger.returned - ledger.setbacks) * (cfg.visibility + 1) <= row.lockedAt - row.req.createdAt
    && (row.req.status.InProgress? && ledger.hasReturned ==> row.lockedAt - row.req.createdAt < cfg.worker.maxLifetime)
  }

  predicate InBudget(cfg: Settings, s: State)
    requires 0 <= cfg.visibility
  {
    forall id | id in s.store.rows :: RowBudget(cfg, s, id)
  }

  lemma OneMoreReturned(returned: int, gap: int, age: int, lifetime: int)
    requires 0 < gap && returned * gap <= age < lifetime
    ensures returned + 1 <= CeilDiv(lifetime, gap)
    ensures (returned + 1) * gap <= age + gap
  {
    var c := CeilDiv(lifetime, gap);
    assert c * gap > lifetime - 1 >= returned * gap by {
      assert c * gap + (lifetime + gap - 1) % gap == lifetime + gap - 1;
    }
    if c <= returned { Scale(c, returned, gap); }
  }

  /** A claim at a reading before the row's last lock sets the lock back by
      less than one step of the budget. */
  lemma Setback(returned: int, gap: int, age: int, later: int)
    requires 0 < gap && returned * gap <= age && age - gap < later
    ensures (returned - 1) * gap <= later
  {
    Distribute(gap, returned, -1);
  }

  lemma BudgetKeptByClaim(cfg: Settings, s: State, r: Replica, id: Id)
    requires Configured(cfg) && Enabled(cfg, s, ClaimRow(r, id)) && Exclusive(cfg, s) && RowBudget(cfg, s, id)
    ensures RowBudget(cfg, Next(cfg, s, ClaimRow(r, id)), id)
  {
    assert PassOk(cfg, s, r) && RowOk(s.store, id) && LedgerOk(s, id);
    var row, now := s.store.rows[id], s.passes[r].now.value;
    if id in s.ledgers {
      var ledger := s.ledgers[id];
      var net, age := ledger.returned - ledger.setbacks, row.lockedAt - row.req.createdAt;
      if row.req.status.InProgress? {
        if ledger.hasReturned { OneMoreReturned(net, cfg.visibility + 1, age, cfg.worker.maxLifetime); }
      } else if now < row.lockedAt {
        Setback(net, cfg.visibility + 1, age, now - row.req.createdAt);
      }
    } else {
      MaxReturnedIsNat(cfg);
    }
  }

  lemma MaxReturnedIsNat(cfg: Settings)
    requires Configured(cfg)
    ensures 0 <= MaxReturned(cfg)
  {
    assert 0 <= cfg.worker.maxLifetime + cfg.visibility;
  }

  /** What a recorded decision leaves in a row that had a budget. */
  lemma RecordedInBudget(cfg: Settings, row: Row, ledger: Ledger, resolution: Resolution, at: Time, jitter: Jitter,
          after: Row)
    requires Configured(cfg) && row.req.status.InProgress?
    requires 1 <= row.req.attempts <= cfg.worker.maxAttempts && LedgerBudget(cfg, row, ledger)
    requires SameIdentity(row, after) && after.lockedAt == row.lockedAt && after.req.attempts == row.req.attempts
    requires match Completion(cfg.worker, row.req, resolution, at, jitter)
             case Some(Failure(_, code, _, retryable, next, _)) =>
               && after.req.status == (if retryable then Pending else Failed) && after.req.errorCode == code
               && (retryable ==> after.nextAttemptAt == next)
             case _ => after.req.status.Succeeded?
    ensures LedgerBudget(cfg, after, ledger)
    ensures after.req.status.Pending? ==> after.req.attempts < cfg.worker.maxAttempts
    ensures after.req.status.Failed? ==> WorkerCode(after.req.errorCode)
    ensures !after.req.status.InProgress?
  {
    if resolution.Failing? {
      ComesBackIff(cfg.worker, row.req, resolution.failure, at, jitter);
    }
  }

  /** What a recorded decision does to the row it is about. */
  lemma RecordedRow(worker: Config, s: Store, req: Request, resolution: Resolution, at: Time, jitter: Jitter)
    requires req.id in s.rows && s.rows[req.id].req == req && req.status.InProgress?
    requires Completion(worker, req, resolution, at, jitter).Some?
    ensures var row := s.rows[req.id];
            var completion := Completion(worker, req, resolution, at, jitter);
            var rows := Apply(s, completion.value).0.rows;
            && req.id in rows
            && (var after := rows[req.id];
                && SameIdentity(row, after) && after.lockedAt == row.lockedAt && after.req.attempts == row.req.attempts
                && after.req.updatedAt == at
                && match completion
                   case Some(Failure(_, code, _, retryable, next, _)) =>
                     && after.req.status == (if retryable then Pending else Failed) && after.req.errorCode == code
                     && (retryable ==> after.nextAttemptAt == next)
                   case _ => after.req.status.Succeeded?)
  {}

  lemma BudgetKeptByWrite(cfg: Settings, s: State, n: nat, jitter: Jitter)
    requires Configured(cfg) && Enabled(cfg, s, Write(n, jitter)) && Exclusive(cfg, s)
    requires s.leases[n].req.id in s.store.rows && RowBudget(cfg, s, s.leases[n].req.id)
    ensures s.leases[n].req.id in Next(cfg, s, Write(n, jitter)).store.rows
    ensures RowBudget(cfg, Next(cfg, s, Write(n, jitter)), s.leases[n].req.id)
  {
    var lease := s.leases[n];
    var id := lease.req.id;
    assert LeaseOk(cfg, s, n);
    RecordedRow(cfg.worker, s.store, lease.req, lease.work.resolution, lease.work.at, jitter);
    var after := Apply(s.store, LeaseCompletion(cfg, lease, jitter).value).0.rows[id];
    RecordedInBudget(cfg, s.store.rows[id], s.ledgers[id], lease.work.resolution, lease.work.at, jitter, after);
  }

  lemma BudgetKeptByGiveBack(cfg: Settings, s: State, n: nat, id: Id)
    requires Configured(cfg) && Enabled(cfg, s, GiveBack(n)) && Exclusive(cfg, s) && id in s.store.rows
    requires RowBudget(cfg, s, id)
    ensures RowBudget(cfg, Next(cfg, s, GiveBack(n)), id)
  {
    var lease := s.leases[n];
    assert LeaseOk(cfg, s, n);
    if lease.work.resolution.Failing? {
      ComesBackIff(cfg.worker, lease.req, lease.work.resolution.failure, lease.work.at, UNIT);
    }
  }

  lemma BudgetKept(cfg: Settings, s: State, step: Step, id: Id)
    requires Configured(cfg) && Enabled(cfg, s, step) && Exclusive(cfg, s) && InBudget(cfg, s)
    requires id in Next(cfg, s, step).store.rows
    ensures RowBudget(cfg, Next(cfg, s, step), id)
  {
    if id in s.store.rows {
      assert RowBudget(cfg, s, id);
      match step
      case ClaimRow(r, claimed) =>
        if claimed == id { BudgetKeptByClaim(cfg, s, r, id); } else { OtherRows(cfg, s, step, id); }
      case Write(n, jitter) =>
        if s.leases[n].req.id == id { BudgetKeptByWrite(cfg, s, n, jitter); } else { OtherRows(cfg, s, step, id); }
      case GiveBack(n) => BudgetKeptByGiveBack(cfg, s, n, id);
      case _ => OtherRows(cfg, s, step, id);
    } else {
      NewRowBudget(cfg, s, step, id);
    }
  }

  lemma NewRowBudget(cfg: Settings, s: State, step: Step, id: Id)
    requires Configured(cfg) && Enabled(cfg, s, step) && Exclusive(cfg, s)
    requires id !in s.store.rows && id in Next(cfg, s, step).store.rows
    ensures RowBudget(cfg, Next(cfg, s, step), id)
  {
    StepIsStoreOp(cfg, s, step);
    assert id !in s.ledgers;
  }

  /** In every reachable state: pending rows have attempts left, in-progress
      rows have spent between one and all of them, and the ledgers balance. */
  lemma {:induction false} AlwaysInBudget(cfg: Settings, start: Time, steps: seq<Step>)
    requires Configured(cfg) && Runs(cfg, start, steps)
    ensures InBudget(cfg, After(cfg, start, steps))
    decreases |steps|
  {
    if steps == [] {
    } else {
      var init, step := steps[..|steps| - 1], steps[|steps| - 1];
      AlwaysInBudget(cfg, start, init);
      AlwaysExclusive(cfg, start, init);
      forall id | id in After(cfg, start, steps).store.rows ensures RowBudget(cfg, After(cfg, start, steps), id) {
        BudgetKept(cfg, After(cfg, start, init), step, id);
      }
    }
  }

  /** Every write storage accepts, in any run, with the two budgets written
      out: the row has succeeded if and only if the flight brought a quote; it
      is pending again if and only if the error was retryable and attempts and
      age both lasted; and else it has failed. */
  lemma WriteDecides(cfg: Settings, start: Time, steps: seq<Step>, n: nat, jitter: Jitter)
    requires Configured(cfg) && Runs(cfg, start, steps)
    requires Enabled(cfg, After(cfg, start, steps), Write(n, jitter))
    ensures var lease := After(cfg, start, steps).leases[n];
            var req, resolution, at := lease.req, lease.work.resolution, lease.work.at;
            var rows := Next(cfg, After(cfg, start, steps), Write(n, jitter)).store.rows;
            && req.id in rows && rows[req.id].req.updatedAt == at && rows[req.id].req.attempts == req.attempts
            && (rows[req.id].req.status == Succeeded <==> resolution.Reused? || resolution.Fetched?)
            && (rows[req.id].req.status == Pending <==>
                  && resolution.Failing? && resolution.failure.Classified? && resolution.failure.err.retryable
                  && req.attempts < cfg.worker.maxAttempts && at - req.createdAt < cfg.worker.maxLifetime)
            && (rows[req.id].req.status == Failed || rows[req.id].req.status == Succeeded
                 || rows[req.id].req.status == Pending)
  {
    WritesAreTheHolders(cfg, start, steps, n, jitter);
    var lease := After(cfg, start, steps).leases[n];
    RecordedRow(cfg.worker, After(cfg, start, steps).store, lease.req, lease.work.resolution, lease.work.at, jitter);
    if lease.work.resolution.Failing? {
      DecisionIs(cfg.worker, lease.req, lease.work.resolution.failure, lease.work.at, jitter);
    }
  }

  /** Not given up on too early. */
  predicate Spent(cfg: Settings, row: Row) {
    row.req.status == Failed && row.req.errorCode == "attempts_exhausted" ==>
      row.req.attempts >= cfg.worker.maxAttempts || row.req.updatedAt - row.req.createdAt >= cfg.worker.maxLifetime
  }

  lemma WriteSpends(cfg: Settings, s: State, n: nat, jitter: Jitter)
    requires Configured(cfg) && Enabled(cfg, s, Write(n, jitter)) && Exclusive(cfg, s)
    ensures var rows := Next(cfg, s, Write(n, jitter)).store.rows;
            s.leases[n].req.id in rows && Spent(cfg, rows[s.leases[n].req.id])
  {
    var lease := s.leases[n];
    assert LeaseOk(cfg, s, n);
    RecordedRow(cfg.worker, s.store, lease.req, lease.work.resolution, lease.work.at, jitter);
    if lease.work.resolution.Failing? {
      DecisionIs(cfg.worker, lease.req, lease.work.resolution.failure, lease.work.at, jitter);
      if lease.work.resolution.failure.Classified? { NotExhausted(lease.work.resolution.failure.err.code); }
    }
  }

  lemma SpentKept(cfg: Settings, s: State, step: Step, id: Id)
    requires Configured(cfg) && Enabled(cfg, s, step) && Exclusive(cfg, s)
    requires id in Next(cfg, s, step).store.rows && (id in s.store.rows ==> Spent(cfg, s.store.rows[id]))
    ensures Spent(cfg, Next(cfg, s, step).store.rows[id])
  {
    if step.Write? && s.leases[step.n].req.id == id {
      WriteSpends(cfg, s, step.n, step.jitter);
    } else if id in s.store.rows && !(step.ClaimRow? && step.id == id) {
      OtherRows(cfg, s, step, id);
    }
  }

  /** Over every run, a row that failed as attempts_exhausted had spent all its
      attempts, or was given up at an age of at least maxLifetime. */
  lemma {:induction false} ExhaustedIsSpent(cfg: Settings, start: Time, steps: seq<Step>, id: Id)
    requires Configured(cfg) && Runs(cfg, start, steps) && id in After(cfg, start, steps).store.rows
    ensures var row := After(cfg, start, steps).store.rows[id];
            row.req.status == Failed && row.req.errorCode == "attempts_exhausted" ==>
              row.req.attempts == cfg.worker.maxAttempts
                  || row.req.updatedAt - row.req.createdAt >= cfg.worker.maxLifetime
    decreases |steps|
  {
    AlwaysInBudget(cfg, start, steps);
    assert RowBudget(cfg, After(cfg, start, steps), id);
    AlwaysSpent(cfg, start, steps, id);
  }

  lemma {:induction false} AlwaysSpent(cfg: Settings, start: Time, steps: seq<Step>, id: Id)
    requires Configured(cfg) && Runs(cfg, start, steps)
    ensures id in After(cfg, start, steps).store.rows ==> Spent(cfg, After(cfg, start, steps).store.rows[id])
    decreases |steps|
  {
    if steps == [] {
    } else {
      var init := steps[..|steps| - 1];
      AlwaysSpent(cfg, start, init, id);
      AlwaysExclusive(cfg, start, init);
      if id in After(cfg, start, steps).store.rows { SpentKept(cfg, After(cfg, start, init), steps[|steps| - 1], id); }
    }
  }

  function ClaimsOf(steps: seq<Step>, id: Id): nat {
    if steps == [] then 0
    else ClaimsOf(steps[..|steps| - 1], id) + if steps[|steps| - 1].ClaimRow? && steps[|steps| - 1].id == id then 1
        else 0
  }

  lemma {:induction false} LedgersCountClaims(cfg: Settings, start: Time, steps: seq<Step>, id: Id)
    requires Runs(cfg, start, steps)
    ensures var ledgers := After(cfg, start, steps).ledgers;
            ClaimsOf(steps, id) == if id in ledgers then ledgers[id].firsts + ledgers[id].reclaims else 0
    decreases |steps|
  {
    if steps == [] {
    } else {
      LedgersCountClaims(cfg, start, steps[..|steps| - 1], id);
    }
  }

  // A claim is lost when it vanishes (crash, panic, failed write) or when the
  // row is reclaimed while the claim is still being worked on.

  function Lost(s: State, step: Step, id: Id): nat {
    if id !in s.ledgers then 0
    else
      match step
      case Vanish(n) => if s.ledgers[id].latest == n then 1 else 0
      case ClaimRow(_, claimed) =>
        if claimed == id && id in s.store.rows && s.store.rows[id].req.status.InProgress?
            && s.ledgers[id].latest in s.leases then 1 else 0
      case _ => 0
  }

  /** The lost claims of a row over a run. */
  ghost function Losses(cfg: Settings, start: Time, steps: seq<Step>, id: Id): nat
    requires Runs(cfg, start, steps)
    decreases |steps|
  {
    if steps == [] then 0
    else Losses(cfg, start, steps[..|steps| - 1], id) + Lost(After(cfg, start, steps[..|steps| - 1]),
        steps[|steps| - 1], id)
  }

  /** The row's latest lease is its own. */
  predicate OwnLease(s: State, id: Id)
    requires id in s.ledgers
  {
    s.ledgers[id].latest in s.leases ==> s.leases[s.ledgers[id].latest].req.id == id
  }

  /** In progress with nobody on it and nothing returned: a loss no reclaim has found yet. */
  predicate Dangling(s: State, id: Id) {
    id in s.ledgers && id in s.store.rows && s.store.rows[id].req.status.InProgress?
    && !s.ledgers[id].hasReturned && s.ledgers[id].latest !in s.leases
  }

  function Unrecorded(s: State, id: Id): nat {
    (if id in s.ledgers then s.ledgers[id].unrecorded else 0) + if Dangling(s, id) then 1 else 0
  }

  lemma OwnLeaseKept(cfg: Settings, s: State, step: Step, id: Id)
    requires Configured(cfg) && Enabled(cfg, s, step) && Exclusive(cfg, s) && id in Next(cfg, s, step).ledgers
    requires id in s.ledgers ==> OwnLease(s, id)
    ensures OwnLease(Next(cfg, s, step), id)
  {
    if id in s.ledgers { assert LedgerOk(s, id); }
    if step.ClaimRow? { assert RowOk(s.store, step.id); }
  }

  lemma LossesGrow(cfg: Settings, s: State, step: Step, id: Id)
    requires Configured(cfg) && Enabled(cfg, s, step) && Exclusive(cfg, s) && (id in s.ledgers ==> OwnLease(s, id))
    ensures Unrecorded(Next(cfg, s, step), id) <= Unrecorded(s, id) + Lost(s, step, id)
  {
    if id in s.ledgers {
      assert id in s.store.rows && LedgerOk(s, id);
      match step
      case Write(n, _) =>
        assert LeaseOk(cfg, s, n);
        LossesGrowByWrite(cfg, s, step, id);
      case ClaimRow(_, claimed) =>
        if claimed != id { OtherRows(cfg, s, step, id); }
      case _ => OtherRows(cfg, s, step, id);
    }
  }

  lemma LossesGrowByWrite(cfg: Settings, s: State, step: Step, id: Id)
    requires step.Write? && Enabled(cfg, s, step) && LeaseOk(cfg, s, step.n)
    requires id in s.ledgers && id in s.store.rows && OwnLease(s, id)
    ensures Unrecorded(Next(cfg, s, step), id) <= Unrecorded(s, id)
  {
    if s.leases[step.n].req.id != id { OtherRows(cfg, s, step, id); }
  }

  lemma {:induction false} UnrecordedAreLosses(cfg: Settings, start: Time, steps: seq<Step>, id: Id)
    requires Configured(cfg) && Runs(cfg, start, steps)
    ensures Unrecorded(After(cfg, start, steps), id) <= Losses(cfg, start, steps, id)
    ensures id in After(cfg, start, steps).ledgers ==> OwnLease(After(cfg, start, steps), id)
    decreases |steps|
  {
    if steps == [] {
    } else {
      var init, step := steps[..|steps| - 1], steps[|steps| - 1];
      UnrecordedAreLosses(cfg, start, init, id);
      AlwaysExclusive(cfg, start, init);
      LossesGrow(cfg, After(cfg, start, init), step, id);
      if id in After(cfg, start, steps).ledgers { OwnLeaseKept(cfg, After(cfg, start, init), step, id); }
    }
  }

  function Setbacks(s: State, id: Id): nat {
    if id in s.ledgers then s.ledgers[id].setbacks else 0
  }

  /** The work any row can cause, in every run: its claims are at most
      maxAttempts, plus ceil(maxLifetime / (visibility + 1ns)), plus the
      claims that were lost, plus its setbacks, of which there are fewer than
      maxAttempts. */
  lemma WorkIsBounded(cfg: Settings, start: Time, steps: seq<Step>, id: Id)
    requires Configured(cfg) && Runs(cfg, start, steps)
    ensures ClaimsOf(steps, id)
            <= cfg.worker.maxAttempts + MaxReturned(cfg) + Losses(cfg, start, steps,
                id) + Setbacks(After(cfg, start, steps), id)
    ensures Setbacks(After(cfg, start, steps), id) < cfg.worker.maxAttempts
  {
    AlwaysExclusive(cfg, start, steps);
    AlwaysInBudget(cfg, start, steps);
    LedgersCountClaims(cfg, start, steps, id);
    UnrecordedAreLosses(cfg, start, steps, id);
    var s := After(cfg, start, steps);
    if id in s.ledgers {
      assert RowBudget(cfg, s, id);
    } else {
      MaxReturnedIsNat(cfg);
    }
  }

  // ------------------------------------------------ no setback in a tame run

  /** No Retry-After in the run, and no backoff, is longer than 4/5 of 2^63. */
  predicate TameRun(cfg: Settings, steps: seq<Step>) {
    && cfg.worker.maxBackoff <= LONGEST_WAIT
    && forall i | 0 <= i < |steps| && steps[i].Resolve? :: TameResolution(steps[i].resolution)
  }

  predicate TameLease(lease: Lease) {
    lease.work.Resolved? ==> TameResolution(lease.work.resolution)
  }

  /** The row is not due before it was created, nor before its last lock. */
  predicate TameRow(s: State, id: Id)
    requires id in s.store.rows
  {
    var row := s.store.rows[id];
    && (row.req.status.Pending? ==> row.req.createdAt <= row.nextAttemptAt)
    && (id in s.ledgers ==>
          && s.ledgers[id].setbacks == 0 && row.req.createdAt <= row.lockedAt
          && (row.req.status.Pending? ==> row.lockedAt <= row.nextAttemptAt))
  }

  predicate TameState(s: State) {
    && (forall n | n in s.leases :: TameLease(s.leases[n]))
    && (forall id | id in s.store.rows :: TameRow(s, id))
  }

  lemma TameClaim(cfg: Settings, s: State, r: Replica, id: Id)
    requires Configured(cfg) && Enabled(cfg, s, ClaimRow(r, id)) && Exclusive(cfg, s) && TameRow(s, id)
    ensures TameRow(Next(cfg, s, ClaimRow(r, id)), id)
  {
    assert LedgerOk(s, id) && RowOk(s.store, id);
  }

  lemma TameWrite(cfg: Settings, s: State, n: nat, jitter: Jitter)
    requires Configured(cfg) && Enabled(cfg, s, Write(n, jitter)) && Exclusive(cfg, s)
    requires cfg.worker.maxBackoff <= LONGEST_WAIT && TameLease(s.leases[n])
    requires s.leases[n].req.id in s.store.rows && TameRow(s, s.leases[n].req.id)
    ensures s.leases[n].req.id in Next(cfg, s, Write(n, jitter)).store.rows
    ensures TameRow(Next(cfg, s, Write(n, jitter)), s.leases[n].req.id)
  {
    var lease := s.leases[n];
    assert LeaseOk(cfg, s, n);
    RecordedRow(cfg.worker, s.store, lease.req, lease.work.resolution, lease.work.at, jitter);
    if lease.work.resolution.Failing? {
      var failure := lease.work.resolution.failure;
      var retryAfter := if failure.Classified? then failure.err.retryAfter else 0;
      WaitIsPositive(cfg.worker.baseBackoff, cfg.worker.maxBackoff, retryAfter, lease.req.attempts);
      NextAttemptBounds(cfg.worker.baseBackoff, cfg.worker.maxBackoff, retryAfter, lease.req.attempts, lease.work.at,
          jitter);
    }
  }

  lemma TameStep(cfg: Settings, s: State, step: Step)
    requires Configured(cfg) && Enabled(cfg, s, step) && Exclusive(cfg, s) && TameState(s)
    requires cfg.worker.maxBackoff <= LONGEST_WAIT && (step.Resolve? ==> TameResolution(step.resolution))
    ensures TameState(Next(cfg, s, step))
  {
    var t := Next(cfg, s, step);
    forall id | id in t.store.rows ensures TameRow(t, id) {
      if id in s.store.rows { TameRowKept(cfg, s, step, id); }
      else { StepIsStoreOp(cfg, s, step); assert id !in s.ledgers; }
    }
  }

  lemma TameRowKept(cfg: Settings, s: State, step: Step, id: Id)
    requires Configured(cfg) && Enabled(cfg, s, step) && Exclusive(cfg, s) && id in s.store.rows && TameRow(s, id)
    requires cfg.worker.maxBackoff <= LONGEST_WAIT && (step.Write? ==> TameLease(s.leases[step.n]))
    ensures id in Next(cfg, s, step).store.rows && TameRow(Next(cfg, s, step), id)
  {
    match step
    case ClaimRow(r, claimed) =>
      if claimed == id { TameClaim(cfg, s, r, id); } else { OtherRows(cfg, s, step, id); }
    case Write(n, jitter) =>
      if s.leases[n].req.id == id { TameWrite(cfg, s, n, jitter); } else { OtherRows(cfg, s, step, id); }
    case _ => OtherRows(cfg, s, step, id);
  }

  lemma {:induction false} AlwaysTame(cfg: Settings, start: Time, steps: seq<Step>)
    requires Configured(cfg) && Runs(cfg, start, steps) && TameRun(cfg, steps)
    ensures TameState(After(cfg, start, steps))
    decreases |steps|
  {
    if steps == [] {
    } else {
      var init, step := steps[..|steps| - 1], steps[|steps| - 1];
      AlwaysTame(cfg, start, init);
      AlwaysExclusive(cfg, start, init);
      TameStep(cfg, After(cfg, start, init), step);
    }
  }

  /** In a run without overflow no row is due before its last lock, so there
      are no setbacks: claims are at most maxAttempts, plus
      ceil(maxLifetime / (visibility + 1ns)), plus the claims that were lost. */
  lemma TameWorkIsBounded(cfg: Settings, start: Time, steps: seq<Step>, id: Id)
    requires Configured(cfg) && Runs(cfg, start, steps) && TameRun(cfg, steps)
    ensures ClaimsOf(steps, id) <= cfg.worker.maxAttempts + MaxReturned(cfg) + Losses(cfg, start, steps, id)
  {
    WorkIsBounded(cfg, start, steps, id);
    AlwaysTame(cfg, start, steps);
    AlwaysExclusive(cfg, start, steps);
    if id in After(cfg, start, steps).ledgers { assert TameRow(After(cfg, start, steps), id); }
  }

  // ------------------------------------------ every run is a run of the store

  /** What a run of replicas does to the store is a run of client and worker
      operations, so everything module Queue proves of those holds here. */
  lemma {:induction false} RunOfTheStore(cfg: Settings, start: Time, steps: seq<Step>) returns (ops: seq<Op>)
    requires Configured(cfg) && Runs(cfg, start, steps)
    ensures WorkerRun(EMPTY, ops) && Exec(EMPTY, ops) == After(cfg, start, steps).store
    decreases |steps|
  {
    if steps == [] { return []; }
    var init, step := steps[..|steps| - 1], steps[|steps| - 1];
    ops := RunOfTheStore(cfg, start, init);
    AlwaysExclusive(cfg, start, init);
    var s := After(cfg, start, init);
    StepIsStoreOp(cfg, s, step);
    var op := StoreOp(cfg, s, step);
    if op.Some? {
      RunOneMore(EMPTY, ops, op.value);
      ops := ops + [op.value];
    }
  }

  lemma {:induction false} RunOneMore(s: Store, ops: seq<Op>, op: Op)
    requires WorkerRun(s, ops) && Possible(Exec(s, ops), op) && FromWorker(Exec(s, ops), op)
    ensures WorkerRun(s, ops + [op]) && Exec(s, ops + [op]) == Apply(Exec(s, ops), op).0
    decreases |ops|
  {
    var all := ops + [op];
    if ops == [] {
      assert all[1..] == [];
    } else {
      assert all[1..] == ops[1..] + [op];
      RunOneMore(Apply(s, ops[0]).0, ops[1..], op);
    }
  }
}
