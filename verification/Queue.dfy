/** The update queue and the quote journal on values: what each operation of
    the repository does to the whole store, and what every run of operations,
    from any number of workers, keeps. */
module Queue {
  import opened Wrappers
  import opened Domain

  /** A request with its queue bookkeeping; quoteId 0 is "no quote yet". */
  datatype Row = Row(req: Request, key: string, nextAttemptAt: Time, lockedAt: Time, quoteId: nat)

  datatype StoredQuote = StoredQuote(pair: Pair, rate: Rate)

  datatype Store = Store(rows: map<Id, Row>, index: map<string, Id>, quotes: map<nat, StoredQuote>, nextQuoteId: nat)

  datatype Outcome = Done | Refused(error: Error)

  const EMPTY := Store(map[], map[], map[], 0)

  // ------------------------------------------------------------- operations

  function Create(s: Store, req: Request, key: string): (Store, Outcome) {
    if key != "" && key in s.index then (s, Refused(KeyExists))
    else (s.(rows := s.rows[req.id := Row(req, key, req.createdAt, ZERO_TIME, 0)],
             index := if key != "" then s.index[key := req.id] else s.index), Done)
  }

  function ByKey(s: Store, key: string): Result<Request, Error> {
    if key in s.index && s.index[key] in s.rows then Ok(s.rows[s.index[key]].req) else Err(NotFound)
  }

  /** What a missing quote reads as. */
  const ZERO_RATE := Rate(0.0, false, "", ZERO_TIME, "", false, ZERO_TIME, ZERO_TIME)

  /** A request with the rate it points at, if any. */
  function ById(s: Store, id: Id): Result<(Request, Option<Rate>), Error> {
    if id !in s.rows then Err(NotFound)
    else
      var row := s.rows[id];
      Ok((row.req, if row.quoteId == 0 then None
                   else Some(if row.quoteId in s.quotes then s.quotes[row.quoteId].rate else ZERO_RATE)))
  }

  /** Pending and due by `now`. */
  predicate Due(row: Row, now: Time) {
    row.req.status.Pending? && row.nextAttemptAt <= now
  }

  /** In progress and locked before `visibleSince`: the reaper's rows. */
  predicate Stuck(row: Row, visibleSince: Time) {
    row.req.status.InProgress? && row.lockedAt < visibleSince
  }

  predicate Eligible(row: Row, now: Time, visibleSince: Time) {
    Due(row, now) || Stuck(row, visibleSince)
  }

  function Candidates(rows: map<Id, Row>, now: Time, visibleSince: Time): set<Id> {
    set id | id in rows && Eligible(rows[id], now, visibleSince)
  }

  /** A fresh claim spends an attempt; a reaper reclaim only refreshes the lock. */
  function ClaimedRow(row: Row, now: Time): Row {
    row.(req := if row.req.status.Pending?
                then row.req.(status := InProgress, updatedAt := now, attempts := row.req.attempts + 1)
                else row.req.(updatedAt := now),
         lockedAt := now)
  }

  function ClaimRows(rows: map<Id, Row>, chosen: set<Id>, now: Time): map<Id, Row> {
    map id | id in rows :: if id in chosen then ClaimedRow(rows[id], now) else rows[id]
  }

  function Transition(s: Store, id: Id, next: Status, now: Time): Result<Request, Error> {
    if id in s.rows then s.rows[id].req.TransitionTo(next, now) else Err(NotFound)
  }

  predicate SameQuote(q: StoredQuote, pair: Pair, rate: Rate) {
    q.pair == pair && q.rate.provider == rate.provider && q.rate.quotedAt == rate.quotedAt
  }

  predicate Holds(quotes: map<nat, StoredQuote>, q: nat, pair: Pair, rate: Rate) {
    q in quotes && SameQuote(quotes[q], pair, rate)
  }

  /** Find or create: the id of the journal row for this quote, and the store holding it. */
  ghost function Post(s: Store, pair: Pair, rate: Rate): (Store, nat) {
    if exists q: nat :: Holds(s.quotes, q, pair, rate) then
      var q: nat :| Holds(s.quotes, q, pair, rate);
      (s, q)
    else
      var q := s.nextQuoteId + 1;
      (s.(nextQuoteId := q, quotes := s.quotes[q := StoredQuote(pair, rate)]), q)
  }

  function Succeed(s: Store, id: Id, next: Request, quoteId: nat, reused: bool): Store
    requires id in s.rows
  {
    s.(rows := s.rows[id := s.rows[id].(req := next.(errorCode := "", errorMessage := "", reused := reused),
        quoteId := quoteId)])
  }

  ghost function CompleteSuccess(s: Store, id: Id, pair: Pair, rate: Rate, now: Time): (Store, Outcome) {
    match Transition(s, id, Succeeded, now)
    case Err(e) => (s, Refused(e))
    case Ok(next) =>
      var (posted, q) := Post(s, pair, rate);
      (Succeed(posted, id, next, q, false), Done)
  }

  function CompleteSuccessReuse(s: Store, id: Id, quoteId: nat, now: Time): (Store, Outcome) {
    match Transition(s, id, Succeeded, now)
    case Err(e) => (s, Refused(e))
    case Ok(next) => (Succeed(s, id, next, quoteId, true), Done)
  }

  function CompleteFailure(s: Store, id: Id, code: string, message: string, retryable: bool, nextAttemptAt: Time,
          now: Time): (Store, Outcome) {
    match Transition(s, id, if retryable then Pending else Failed, now)
    case Err(e) => (s, Refused(e))
    case Ok(next) =>
      var row := s.rows[id].(req := next.(errorCode := code, errorMessage := message));
      (s.(rows := s.rows[id := if retryable then row.(nextAttemptAt := nextAttemptAt) else row]), Done)
  }

  /** The newest quote of a pair: latest quotedAt, then largest id. */
  ghost predicate IsLatest(quotes: map<nat, StoredQuote>, pair: Pair, best: nat) {
    && best in quotes && quotes[best].pair == pair
    && forall q | q in quotes && quotes[q].pair == pair :: NotNewer(quotes, q, best)
  }

  predicate NotNewer(quotes: map<nat, StoredQuote>, q: nat, best: nat)
    requires q in quotes && best in quotes
  {
    quotes[q].rate.quotedAt < quotes[best].rate.quotedAt
    || (quotes[q].rate.quotedAt == quotes[best].rate.quotedAt && q <= best)
  }

  ghost function Latest(quotes: map<nat, StoredQuote>, pair: Pair): Option<nat> {
    if exists q: nat :: IsLatest(quotes, pair, q) then
      var q: nat :| IsLatest(quotes, pair, q);
      Some(q)
    else None
  }

  // ------------------------------------------------------------------- runs

  /** A claim names the rows it takes, so that every selection policy is covered. */
  datatype Op =
    | Submit(req: Request, key: string)
    | Claim(chosen: set<Id>, now: Time, visibleSince: Time)
    | Success(id: Id, pair: Pair, rate: Rate, now: Time)
    | Reuse(id: Id, quoteId: nat, now: Time)
    | Failure(id: Id, code: string, message: string, retryable: bool, nextAttemptAt: Time, now: Time)

  ghost function Apply(s: Store, op: Op): (Store, Outcome) {
    match op
    case Submit(req, key) => Create(s, req, key)
    case Claim(chosen, now, _) => (s.(rows := ClaimRows(s.rows, chosen, now)), Done)
    case Success(id, pair, rate, now) => CompleteSuccess(s, id, pair, rate, now)
    case Reuse(id, quoteId, now) => CompleteSuccessReuse(s, id, quoteId, now)
    case Failure(id, code, message, retryable, next, now) => CompleteFailure(s, id, code, message, retryable, next, now)
  }

  /** Ids are fresh, and a claim takes eligible rows only; anything else may
      happen at any time, also late, repeated or misdirected completions. */
  predicate Possible(s: Store, op: Op) {
    match op
    case Submit(req, _) => req.id !in s.rows && req == NewRequest(req.id, req.pair, req.createdAt)
    case Claim(chosen, now, visibleSince) => chosen <= Candidates(s.rows, now, visibleSince)
    case _ => true
  }

  ghost function Exec(s: Store, ops: seq<Op>): Store
    decreases |ops|
  {
    if ops == [] then s else Exec(Apply(s, ops[0]).0, ops[1..])
  }

  ghost predicate Legal(s: Store, ops: seq<Op>)
    decreases |ops|
  {
    ops == [] || (Possible(s, ops[0]) && Legal(Apply(s, ops[0]).0, ops[1..]))
  }

  // ----------------------------------------- terminal states are absorbing

  /** Everything about a row that no operation may change. */
  predicate SameIdentity(a: Row, b: Row) {
    a.req.id == b.req.id && a.req.pair == b.req.pair && a.req.createdAt == b.req.createdAt && a.key == b.key
  }

  predicate RowContinues(s: Store, t: Store, id: Id) {
    id in s.rows ==>
      && id in t.rows && SameIdentity(s.rows[id], t.rows[id])
      && (s.rows[id].req.status.Terminal() ==> t.rows[id] == s.rows[id])
  }

  lemma StepContinues(s: Store, op: Op, id: Id)
    requires Possible(s, op)
    ensures RowContinues(s, Apply(s, op).0, id)
  {}

  /** Over every run, rows keep their id, pair, key and creation time, and a
      terminal row is never touched again. */
  lemma {:induction false} TerminalIsAbsorbing(s: Store, ops: seq<Op>, id: Id)
    requires Legal(s, ops)
    ensures RowContinues(s, Exec(s, ops), id)
    decreases |ops|
  {
    if ops == [] {
    } else {
      StepContinues(s, ops[0], id);
      TerminalIsAbsorbing(Apply(s, ops[0]).0, ops[1..], id);
    }
  }

  predicate Closed(s: Store, id: Id) {
    id in s.rows && s.rows[id].req.status.Terminal()
  }

  /** How many operations of a run move the row into a terminal status. */
  ghost function Closings(s: Store, ops: seq<Op>, id: Id): nat
    decreases |ops|
  {
    if ops == [] then 0
    else
      var t := Apply(s, ops[0]).0;
      (if !Closed(s, id) && Closed(t, id) then 1 else 0) + Closings(t, ops[1..], id)
  }

  /** However many workers complete a row, it is closed at most once, and
      exactly once if it ends up closed. */
  lemma {:induction false} ClosedOnce(s: Store, ops: seq<Op>, id: Id)
    requires Legal(s, ops)
    ensures Closings(s, ops, id) == if !Closed(s, id) && Closed(Exec(s, ops), id) then 1 else 0
    decreases |ops|
  {
    if ops == [] {
    } else {
      StepContinues(s, ops[0], id);
      TerminalIsAbsorbing(Apply(s, ops[0]).0, ops[1..], id);
      ClosedOnce(Apply(s, ops[0]).0, ops[1..], id);
    }
  }

  /** The operation of a run that closes the row. */
  ghost function Closer(s: Store, ops: seq<Op>, id: Id): Option<Op>
    decreases |ops|
  {
    if ops == [] then None
    else
      var t := Apply(s, ops[0]).0;
      if !Closed(s, id) && Closed(t, id) then Some(ops[0]) else Closer(t, ops[1..], id)
  }

  /** How a row was closed shows in it for ever: succeeded and not reused by a
      posted quote, succeeded, reused and pointing at its quote by a reuse,
      failed with its code and message by a permanent failure, each at that
      operation's instant; and nothing else closes rows. */
  predicate ClosedAs(row: Row, op: Op) {
    match op
    case Success(id, _, _, now) =>
      row.req.id == id && row.req.status.Succeeded? && !row.req.reused && row.req.updatedAt == now
      && row.req.errorCode == "" && row.req.errorMessage == ""
    case Reuse(id, quoteId, now) =>
      row.req.id == id && row.req.status.Succeeded? && row.req.reused && row.req.updatedAt == now
          && row.quoteId == quoteId
      && row.req.errorCode == "" && row.req.errorMessage == ""
    case Failure(id, code, message, retryable, _, now) =>
      row.req.id == id && row.req.status.Failed? && !retryable && row.req.updatedAt == now
      && row.req.errorCode == code && row.req.errorMessage == message
    case _ => false
  }

  lemma StepClosesAs(s: Store, op: Op, id: Id)
    requires Possible(s, op) && !Closed(s, id) && Closed(Apply(s, op).0, id)
    requires (id in s.rows ==> s.rows[id].req.id == id)
    ensures ClosedAs(Apply(s, op).0.rows[id], op)
  {}

  /** Every row of every run is under its own id. */
  lemma StepKeepsId(s: Store, op: Op, id: Id)
    requires Possible(s, op) && (id in s.rows ==> s.rows[id].req.id == id)
    ensures id in Apply(s, op).0.rows ==> Apply(s, op).0.rows[id].req.id == id
  {}

  lemma {:induction false} ClosedBy(s: Store, ops: seq<Op>, id: Id)
    requires Legal(s, ops) && !Closed(s, id) && Closed(Exec(s, ops), id) && (id in s.rows ==> s.rows[id].req.id == id)
    ensures Closer(s, ops, id).Some? && ClosedAs(Exec(s, ops).rows[id], Closer(s, ops, id).value)
    decreases |ops|
  {
    if ops == [] {
      assert false;
    } else {
      var t := Apply(s, ops[0]).0;
      StepKeepsId(s, ops[0], id);
      if Closed(t, id) {
        StepClosesAs(s, ops[0], id);
        TerminalIsAbsorbing(t, ops[1..], id);
      } else {
        ClosedBy(t, ops[1..], id);
      }
    }
  }

  // ---------------------------------------------- what workers keep in order

  predicate Admitted(rate: Rate) {
    rate.value > 0.0 && rate.quotedAt != ZERO_TIME && rate.quotedAt <= rate.fetchedAt + MAX_QUOTED_AT_SKEW
  }

  /** What a worker's completion obeys: it posts an admitted rate under the
      row's own pair, or points at an existing quote of that pair. */
  predicate FromWorker(s: Store, op: Op) {
    match op
    case Success(id, pair, rate, _) => Admitted(rate) && (id in s.rows ==> pair == s.rows[id].req.pair)
    case Reuse(id, q, _) => q in s.quotes && (id in s.rows ==> s.quotes[q].pair == s.rows[id].req.pair)
    case _ => true
  }

  predicate RowOk(s: Store, id: Id)
    requires id in s.rows
  {
    var row := s.rows[id];
    && row.req.id == id
    && (row.quoteId != 0 <==> row.req.status.Succeeded?)
    && (row.quoteId != 0 ==> row.quoteId in s.quotes && s.quotes[row.quoteId].pair == row.req.pair)
    && (row.req.status.Succeeded? ==> row.req.errorCode == "" && row.req.errorMessage == "")
    && (row.key != "" ==> row.key in s.index && s.index[row.key] == id)
  }

  predicate UniqueQuotes(quotes: map<nat, StoredQuote>, nextQuoteId: nat) {
    && (forall q | q in quotes :: 1 <= q <= nextQuoteId)
    && (forall p, q | p in quotes && q in quotes && SameQuote(quotes[p], quotes[q].pair, quotes[q].rate) :: p == q)
  }

  predicate QuotesOk(quotes: map<nat, StoredQuote>, nextQuoteId: nat) {
    && UniqueQuotes(quotes, nextQuoteId)
    && (forall q | q in quotes :: Admitted(quotes[q].rate))
  }

  /** The store's invariant: a row has a quote exactly when it succeeded, the
      quote exists and has the row's pair, no two quotes share (provider,
      pair, quotedAt), and the index is exactly the rows' keys. */
  predicate Consistent(s: Store) {
    && (forall id | id in s.rows :: RowOk(s, id))
    && QuotesOk(s.quotes, s.nextQuoteId)
    && (forall k | k in s.index :: k != "" && s.index[k] in s.rows && s.rows[s.index[k]].key == k)
  }

  /** The journal only grows. */
  predicate Grown(s: Store, t: Store) {
    forall q | q in s.quotes :: q in t.quotes && t.quotes[q] == s.quotes[q]
  }

  /** With unique quotes, finding or creating is determined: the existing
      row's id, or the next one. */
  lemma PostIs(s: Store, pair: Pair, rate: Rate)
    requires UniqueQuotes(s.quotes, s.nextQuoteId)
    ensures var (t, q) := Post(s, pair, rate);
            && t.rows == s.rows && t.index == s.index && Grown(s, t)
            && Holds(t.quotes, q, pair, rate)
            && (forall p | Holds(s.quotes, p, pair, rate) :: p == q && t == s)
            && UniqueQuotes(t.quotes, t.nextQuoteId)
            && (Admitted(rate) && QuotesOk(s.quotes, s.nextQuoteId) ==> QuotesOk(t.quotes, t.nextQuoteId))
  {
    var (t, q) := Post(s, pair, rate);
    if t == s {
      forall p | Holds(s.quotes, p, pair, rate) ensures p == q {
        assert SameQuote(s.quotes[p], s.quotes[q].pair, s.quotes[q].rate);
      }
    } else {
      forall p | p in s.quotes ensures !SameQuote(s.quotes[p], pair, rate) { assert !Holds(s.quotes, p, pair, rate); }
      forall p, r | p in t.quotes && r in t.quotes
          && SameQuote(t.quotes[p], t.quotes[r].pair, t.quotes[r].rate) ensures p == r {
        if p == q && r != q { assert SameQuote(s.quotes[r], pair, rate); }
      }
    }
  }

  /** What is posted is in the journal under its own pair, provider and
      instant; a row is added, holding exactly this rate, if and only if no row
      agreed in all three; every other row stays. */
  lemma PostStores(s: Store, pair: Pair, rate: Rate)
    requires UniqueQuotes(s.quotes, s.nextQuoteId)
    ensures var (t, q) := Post(s, pair, rate);
            && q in t.quotes && t.quotes[q].pair == pair
            && t.quotes[q].rate.provider == rate.provider && t.quotes[q].rate.quotedAt == rate.quotedAt
            && t.quotes.Keys == s.quotes.Keys + {q}
            && (forall p | p in s.quotes :: t.quotes[p] == s.quotes[p])
            && (q !in s.quotes <==>
                  forall p | p in s.quotes ::
                    s.quotes[p].pair != pair || s.quotes[p].rate.provider != rate.provider
                    || s.quotes[p].rate.quotedAt != rate.quotedAt)
            && (q !in s.quotes ==> t.quotes[q].rate == rate)
  {
    PostIs(s, pair, rate);
    if exists p: nat :: Holds(s.quotes, p, pair, rate) {
      var p: nat :| Holds(s.quotes, p, pair, rate);
    } else {
      forall p | p in s.quotes ensures !SameQuote(s.quotes[p], pair, rate) { assert !Holds(s.quotes, p, pair, rate); }
    }
  }

  /** After a granted success the row points at a quote of the given pair,
      provider and instant: the given rate itself if no row of the journal
      agreed with it in all three. */
  lemma SuccessStores(s: Store, id: Id, pair: Pair, rate: Rate, now: Time)
    requires UniqueQuotes(s.quotes, s.nextQuoteId) && CompleteSuccess(s, id, pair, rate, now).1.Done?
    ensures var t := CompleteSuccess(s, id, pair, rate, now).0;
            && id in t.rows && t.rows[id].quoteId in t.quotes
            && (var quote := t.quotes[t.rows[id].quoteId];
                && quote.pair == pair && quote.rate.provider == rate.provider && quote.rate.quotedAt == rate.quotedAt
                && ((forall p | p in s.quotes ::
                       s.quotes[p].pair != pair || s.quotes[p].rate.provider != rate.provider
                       || s.quotes[p].rate.quotedAt != rate.quotedAt) ==> quote.rate == rate))
            && t.quotes.Keys == s.quotes.Keys + {t.rows[id].quoteId}
  {
    PostStores(s, pair, rate);
  }

  lemma SucceedKeeps(s: Store, id: Id, next: Request, q: nat, reused: bool, now: Time)
    requires Consistent(s) && id in s.rows && s.rows[id].req.TransitionTo(Succeeded, now) == Ok(next)
    requires q in s.quotes && s.quotes[q].pair == s.rows[id].req.pair
    ensures Consistent(Succeed(s, id, next, q, reused))
  {
    var t := Succeed(s, id, next, q, reused);
    forall i | i in t.rows ensures RowOk(t, i) { assert RowOk(s, i); }
  }

  lemma PostKeeps(s: Store, pair: Pair, rate: Rate)
    requires Consistent(s) && Admitted(rate)
    ensures Consistent(Post(s, pair, rate).0)
  {
    PostIs(s, pair, rate);
    var t := Post(s, pair, rate).0;
    forall i | i in t.rows ensures RowOk(t, i) { assert RowOk(s, i); }
  }

  lemma StepKeeps(s: Store, op: Op)
    requires Consistent(s) && Possible(s, op) && FromWorker(s, op)
    ensures Consistent(Apply(s, op).0) && Grown(s, Apply(s, op).0)
    ensures var quotes := Apply(s, op).0.quotes;
            forall p, q | p in quotes && q in quotes && quotes[p].pair == quotes[q].pair
                          && quotes[p].rate.provider == quotes[q].rate.provider
                          && quotes[p].rate.quotedAt == quotes[q].rate.quotedAt :: p == q
  {
    var t := Apply(s, op).0;
    match op
    case Success(id, pair, rate, now) =>
      PostIs(s, pair, rate);
      PostKeeps(s, pair, rate);
      if Apply(s, op).1.Done? {
        var (posted, q) := Post(s, pair, rate);
        SucceedKeeps(posted, id, Transition(s, id, Succeeded, now).value, q, false, now);
      }
    case Reuse(id, q, now) =>
      if Apply(s, op).1.Done? {
        SucceedKeeps(s, id, Transition(s, id, Succeeded, now).value, q, true, now);
      }
    case _ =>
      forall i | i in t.rows ensures RowOk(t, i) { assert i in s.rows ==> RowOk(s, i); }
      forall k | k in t.index ensures k != "" && t.index[k] in t.rows && t.rows[t.index[k]].key == k {
        if k in s.index { StepContinues(s, op, s.index[k]); }
      }
  }

  ghost predicate WorkerRun(s: Store, ops: seq<Op>)
    decreases |ops|
  {
    ops == [] || (Possible(s, ops[0]) && FromWorker(s, ops[0]) && WorkerRun(Apply(s, ops[0]).0, ops[1..]))
  }

  /** Every run of clients and workers from a consistent store stays
      consistent, and the journal only grows: no reuse ever dangles. */
  lemma {:induction false} RunKeeps(s: Store, ops: seq<Op>)
    requires Consistent(s) && WorkerRun(s, ops)
    ensures Consistent(Exec(s, ops)) && Grown(s, Exec(s, ops))
    ensures var quotes := Exec(s, ops).quotes;
            forall p, q | p in quotes && q in quotes && quotes[p].pair == quotes[q].pair
                          && quotes[p].rate.provider == quotes[q].rate.provider
                          && quotes[p].rate.quotedAt == quotes[q].rate.quotedAt :: p == q
    decreases |ops|
  {
    if ops == [] {
    } else {
      StepKeeps(s, ops[0]);
      RunKeeps(Apply(s, ops[0]).0, ops[1..]);
    }
  }

  /** A row closed by a posted quote points at one of that provider and
      instant, of the posted pair, over every run. */
  lemma {:induction false} PostedQuoteShows(s: Store, ops: seq<Op>, id: Id)
    requires Consistent(s) && WorkerRun(s, ops) && !Closed(s, id) && Closed(Exec(s, ops), id)
    requires Closer(s, ops, id).Some? && Closer(s, ops, id).value.Success?
    ensures var t, op := Exec(s, ops), Closer(s, ops, id).value;
            && id in t.rows && t.rows[id].quoteId in t.quotes
            && t.quotes[t.rows[id].quoteId].pair == op.pair
            && t.quotes[t.rows[id].quoteId].rate.provider == op.rate.provider
            && t.quotes[t.rows[id].quoteId].rate.quotedAt == op.rate.quotedAt
    decreases |ops|
  {
    if ops == [] {
      assert false;
    } else {
      var t := Apply(s, ops[0]).0;
      StepKeeps(s, ops[0]);
      if Closed(t, id) {
        var op := ops[0];
        assert RowOk(t, id);
        SuccessStores(s, op.id, op.pair, op.rate, op.now);
        assert op.id == id;
        RunKeeps(t, ops[1..]);
        WorkerRunIsLegal(t, ops[1..]);
        TerminalIsAbsorbing(t, ops[1..], id);
      } else {
        PostedQuoteShows(t, ops[1..], id);
      }
    }
  }

  // --------------------------------------------------------- one rate, one row

  /** All completions with one fetched rate, whatever runs in between, point
      at one journal row, and only the first can add it. */
  lemma OneRateOneRow(s: Store, first: Id, second: Id, pair: Pair, rate: Rate, t1: Time, t2: Time, between: seq<Op>)
    requires Consistent(s) && Admitted(rate)
    requires var (a, o) := CompleteSuccess(s, first, pair, rate, t1);
             && o.Done? && pair == s.rows[first].req.pair && WorkerRun(a, between)
             && CompleteSuccess(Exec(a, between), second, pair, rate, t2).1.Done?
    ensures var a := CompleteSuccess(s, first, pair, rate, t1).0;
            var b := Exec(a, between);
            var c := CompleteSuccess(b, second, pair, rate, t2).0;
            && c.quotes == b.quotes && c.rows[second].quoteId == a.rows[first].quoteId
            && first in c.rows && c.rows[first].quoteId == a.rows[first].quoteId
  {
    StepKeeps(s, Success(first, pair, rate, t1));
    PostIs(s, pair, rate);
    var a := CompleteSuccess(s, first, pair, rate, t1).0;
    RunKeeps(a, between);
    var b := Exec(a, between);
    PostIs(b, pair, rate);
    assert Holds(b.quotes, a.rows[first].quoteId, pair, rate);
    WorkerRunIsLegal(a, between);
    TerminalIsAbsorbing(a, between, first);
    StepContinues(b, Success(second, pair, rate, t2), first);
  }

  lemma {:induction false} WorkerRunIsLegal(s: Store, ops: seq<Op>)
    requires WorkerRun(s, ops)
    ensures Legal(s, ops)
    decreases |ops|
  {
    if ops == [] {
    } else {
      WorkerRunIsLegal(Apply(s, ops[0]).0, ops[1..]);
    }
  }

  // ------------------------------------------------------------ latest quote

  lemma LatestIsUnique(quotes: map<nat, StoredQuote>, pair: Pair, a: nat, b: nat)
    requires IsLatest(quotes, pair, a) && IsLatest(quotes, pair, b)
    ensures a == b
  {
    assert NotNewer(quotes, a, b) && NotNewer(quotes, b, a);
  }

  lemma LatestIs(quotes: map<nat, StoredQuote>, pair: Pair, q: nat)
    ensures IsLatest(quotes, pair, q) <==> Latest(quotes, pair) == Some(q)
    ensures Latest(quotes, pair) == Some(q)
            <==> && q in quotes && quotes[q].pair == pair
                 && forall p | p in quotes && quotes[p].pair == pair ::
                      quotes[p].rate.quotedAt < quotes[q].rate.quotedAt
                      || (quotes[p].rate.quotedAt == quotes[q].rate.quotedAt && p <= q)
  {
    if IsLatest(quotes, pair, q) { LatestIsUnique(quotes, pair, q, Latest(quotes, pair).value); }
  }

  /** A pair with a quote has a latest one. */
  lemma {:induction false} LatestExists(quotes: map<nat, StoredQuote>, pair: Pair, some: nat) returns (best: nat)
    requires some in quotes && quotes[some].pair == pair
    ensures IsLatest(quotes, pair, best)
    decreases |quotes|
  {
    var rest := quotes - {some};
    assert rest.Keys == quotes.Keys - {some};
    if other: nat :| other in rest && rest[other].pair == pair {
      var r := LatestExists(rest, pair, other);
      best := if NotNewer(quotes, r, some) then some else r;
      forall q | q in quotes && quotes[q].pair == pair ensures NotNewer(quotes, q, best) {
        if q != some { assert NotNewer(rest, q, r); }
      }
    } else {
      best := some;
      forall q | q in quotes && quotes[q].pair == pair ensures q == some { assert q != some ==> q in rest; }
    }
  }

  /** Over any run a pair that has a latest quote keeps having one, and it is
      never replaced by an older one. */
  lemma LatestNeverGoesBack(s: Store, ops: seq<Op>, pair: Pair, before: nat) returns (later: nat)
    requires Consistent(s) && WorkerRun(s, ops) && IsLatest(s.quotes, pair, before)
    ensures var quotes := Exec(s, ops).quotes;
            && IsLatest(quotes, pair, later)
            && before in quotes && quotes[before] == s.quotes[before] && NotNewer(quotes, before, later)
  {
    RunKeeps(s, ops);
    later := LatestExists(Exec(s, ops).quotes, pair, before);
  }

  // ------------------------------------------------------------- idempotency

  /** A key, once taken, stays with its row over every run; the lookup that
      follows "key exists" therefore always finds it, and finds the same id
      and pair, whatever happens between the two steps. */
  lemma KeyIsForever(s: Store, ops: seq<Op>, key: string)
    requires Consistent(s) && WorkerRun(s, ops) && key in s.index
    ensures var t := Exec(s, ops);
            && key in t.index && t.index[key] == s.index[key]
            && ByKey(t, key).Ok? && ByKey(s, key).Ok?
            && ByKey(t, key).value.id == ByKey(s, key).value.id == s.index[key]
            && ByKey(t, key).value.pair == ByKey(s, key).value.pair
            && ByKey(t, key).value.createdAt == ByKey(s, key).value.createdAt
            && s.index[key] in t.rows && ByKey(t, key) == Ok(t.rows[s.index[key]].req)
  {
    var id := s.index[key];
    RunKeeps(s, ops);
    WorkerRunIsLegal(s, ops);
    TerminalIsAbsorbing(s, ops, id);
    assert RowOk(s, id) && RowOk(Exec(s, ops), id);
  }
}
