/** The database repository as table transformations, and the proof that it
    and the in-memory repository are one queue and one journal. */
module Postgres {
  import opened Wrappers
  import opened Domain
  import opened Queue
  import opened Claims

  /** A quote_updates row; None is NULL. */
  datatype UpdateRow = UpdateRow(
    pair: Pair, status: Status, key: Option<string>, attempts: int, nextAttemptAt: Time, lockedAt: Option<Time>,
    quoteId: Option<nat>, errorCode: Option<string>, errorMessage: Option<string>, reused: Option<bool>,
    createdAt: Time, updatedAt: Time)

  /** `sequence` is the last id BIGSERIAL handed out; it never goes back. */
  datatype Tables = Tables(updates: map<Id, UpdateRow>, quotes: map<nat, StoredQuote>, sequence: nat)

  const EMPTY_TABLES := Tables(map[], map[], 0)

  function OrEmpty(s: Option<string>): string {
    if s.Some? then s.value else ""
  }

  // ------------------------------------------------------------- statements

  function Insert(t: Tables, req: Request, key: string): (Tables, Outcome) {
    if req.id in t.updates then (t, Refused(DuplicateId))
    else if key != "" && exists id :: id in t.updates && t.updates[id].key == Some(key) then (t, Refused(KeyExists))
    else
      (t.(updates := t.updates[req.id := UpdateRow(
            req.pair, req.status, if key == "" then None else Some(key), 0, req.createdAt, None,
            None, None, None, None, req.createdAt, req.createdAt)]), Done)
  }

  /** The SELECT that explains why an UPDATE ... WHERE status = 'in_progress' matched no row. */
  function Diagnose(t: Tables, id: Id, next: Status): Error {
    if id !in t.updates then NotFound
    else if !t.updates[id].status.CanTransitionTo(next) then InvalidTransition(t.updates[id].status, next)
    else ChangedConcurrently
  }

  predicate Matches(t: Tables, id: Id) {
    id in t.updates && t.updates[id].status.InProgress?
  }

  function PointAt(t: Tables, id: Id, quoteId: nat, reused: bool, now: Time): (Tables, Outcome) {
    if !Matches(t, id) then (t, Refused(Diagnose(t, id, Succeeded)))
    else if quoteId !in t.quotes then (t, Refused(UnknownQuote))
    else
      (t.(updates := t.updates[id := t.updates[id].(status := Succeeded, quoteId := Some(quoteId),
          reused := Some(reused),
                                                    updatedAt := now, errorCode := None, errorMessage := None)]), Done)
  }

  /** INSERT ... ON CONFLICT DO NOTHING, then the winner's id: the sequence
      advances whether or not a row goes in. */
  ghost function Upsert(t: Tables, pair: Pair, rate: Rate): (Tables, nat) {
    var n := t.sequence + 1;
    if exists q: nat :: Holds(t.quotes, q, pair, rate) then
      var q: nat :| Holds(t.quotes, q, pair, rate);
      (t.(sequence := n), q)
    else (t.(sequence := n, quotes := t.quotes[n := StoredQuote(pair, rate)]), n)
  }

  /** The upsert comes first; a refused update rolls both back, except the sequence. */
  ghost function TxSuccess(t: Tables, id: Id, pair: Pair, rate: Rate, now: Time): (Tables, Outcome) {
    var (posted, q) := Upsert(t, pair, rate);
    var (done, outcome) := PointAt(posted, id, q, false, now);
    if outcome.Done? then (done, outcome) else (t.(sequence := posted.sequence), outcome)
  }

  function TxFailure(t: Tables, id: Id, code: string, message: string, retryable: bool, nextAttemptAt: Time,
          now: Time): (Tables, Outcome) {
    var next := if retryable then Pending else Failed;
    if !Matches(t, id) then (t, Refused(Diagnose(t, id, next)))
    else
      var row := t.updates[id];
      (t.(updates := t.updates[id := row.(status := next, nextAttemptAt := if next == Pending then nextAttemptAt
          else row.nextAttemptAt,
                                          errorCode := Some(code), errorMessage := Some(message), updatedAt := now)]),
                                              Done)
  }

  /** What the claim's UPDATE makes of one row. */
  function ClaimedUpdate(row: UpdateRow, now: Time): UpdateRow {
    row.(status := InProgress, lockedAt := Some(now), updatedAt := now,
        attempts := row.attempts + if row.status.Pending? then 1 else 0)
  }

  function ClaimUpdate(t: Tables, chosen: set<Id>, now: Time): Tables {
    t.(updates := map id | id in t.updates :: if id in chosen then ClaimedUpdate(t.updates[id], now) else t.updates[id])
  }

  ghost function DbApply(t: Tables, op: Op): (Tables, Outcome) {
    match op
    case Submit(req, key) => Insert(t, req, key)
    case Claim(chosen, now, _) => (ClaimUpdate(t, chosen, now), Done)
    case Success(id, pair, rate, now) => TxSuccess(t, id, pair, rate, now)
    case Reuse(id, quoteId, now) => PointAt(t, id, quoteId, true, now)
    case Failure(id, code, message, retryable, next, now) => TxFailure(t, id, code, message, retryable, next, now)
  }

  /** A row as scanned back; only the read by id fills in `reused`. */
  function Scan(id: Id, row: UpdateRow): Request {
    Request(id, row.pair, row.status, row.createdAt, row.updatedAt, row.attempts, OrEmpty(row.errorCode),
        OrEmpty(row.errorMessage), false)
  }

  ghost function SelectByKey(t: Tables, key: string): Result<Request, Error> {
    if exists id :: id in t.updates && t.updates[id].key == Some(key) then
      var id :| id in t.updates && t.updates[id].key == Some(key);
      Ok(Scan(id, t.updates[id]))
    else Err(NotFound)
  }

  /** The read by id, joined with the quote. */
  function SelectById(t: Tables, id: Id): Result<(Request, Option<Rate>), Error> {
    if id !in t.updates then Err(NotFound)
    else
      var row := t.updates[id];
      Ok((Scan(id, row).(reused := row.reused == Some(true)),
          if row.quoteId.Some? && row.quoteId.value in t.quotes then Some(t.quotes[row.quoteId.value].rate) else None))
  }

  // ------------------------------------------------------ errors and rollback

  /** A completion the database refuses leaves both tables as they were. */
  lemma RefusalChangesNothing(t: Tables, op: Op)
    requires DbApply(t, op).1.Refused?
    ensures DbApply(t, op).0.updates == t.updates && DbApply(t, op).0.quotes == t.quotes
  {}

  /** "Changed concurrently" needs a write in between: an UPDATE that found no
      row at `before` and a SELECT at `after` say so exactly when the row has
      meanwhile become in progress. */
  lemma ConcurrentChangeIff(before: Tables, after: Tables, id: Id, next: Status)
    requires !Matches(before, id) && next in {Succeeded, Failed, Pending}
    ensures Diagnose(after, id, next).ChangedConcurrently? <==> Matches(after, id)
    ensures before == after ==> !Diagnose(after, id, next).ChangedConcurrently?
  {}

  // ---------------------------------------------------------------- journal

  /** After a committed success the row points at a quote of the given base,
      provider and instant; a row is added to the journal, holding exactly this
      rate, if and only if none agreed in all three. */
  lemma TxSuccessStores(t: Tables, id: Id, pair: Pair, rate: Rate, now: Time)
    requires UniqueQuotes(t.quotes, t.sequence) && TxSuccess(t, id, pair, rate, now).1.Done?
    ensures var u := TxSuccess(t, id, pair, rate, now).0;
            && id in u.updates && u.updates[id].status == Succeeded && u.updates[id].reused == Some(false)
            && u.updates[id].quoteId.Some? && u.updates[id].quoteId.value in u.quotes
            && (var q := u.updates[id].quoteId.value;
                && u.quotes[q].pair == pair && u.quotes[q].rate.provider == rate.provider
                && u.quotes[q].rate.quotedAt == rate.quotedAt
                && u.quotes.Keys == t.quotes.Keys + {q} && (forall p | p in t.quotes :: u.quotes[p] == t.quotes[p])
                && (q !in t.quotes <==>
                      forall p | p in t.quotes ::
                        t.quotes[p].pair != pair || t.quotes[p].rate.provider != rate.provider
                        || t.quotes[p].rate.quotedAt != rate.quotedAt)
                && (q !in t.quotes ==> u.quotes[q].rate == rate))
  {
    UpsertStores(t, pair, rate);
  }

  lemma UpsertStores(t: Tables, pair: Pair, rate: Rate)
    requires UniqueQuotes(t.quotes, t.sequence)
    ensures var (u, q) := Upsert(t, pair, rate);
            && u.updates == t.updates && q in u.quotes && u.quotes[q].pair == pair
            && u.quotes[q].rate.provider == rate.provider && u.quotes[q].rate.quotedAt == rate.quotedAt
            && u.quotes.Keys == t.quotes.Keys + {q} && (forall p | p in t.quotes :: u.quotes[p] == t.quotes[p])
            && (q !in t.quotes <==>
                  forall p | p in t.quotes ::
                    t.quotes[p].pair != pair || t.quotes[p].rate.provider != rate.provider
                    || t.quotes[p].rate.quotedAt != rate.quotedAt)
            && (q !in t.quotes ==> u.quotes[q].rate == rate)
  {
    if exists p: nat :: Holds(t.quotes, p, pair, rate) {
      var p: nat :| Holds(t.quotes, p, pair, rate);
    } else {
      forall p | p in t.quotes ensures !SameQuote(t.quotes[p], pair, rate) { assert !Holds(t.quotes, p, pair, rate); }
    }
  }

  // -------------------------------------------------------------- simulation

  /** `ids` takes in-memory quote ids to database ones. The database leaves
      gaps, so ids are renamed, but in order. */
  predicate JournalsMatch(t: Tables, s: Store, ids: map<nat, nat>) {
    Carries(t.quotes, t.sequence, s.quotes, ids) && Covers(t.quotes, ids) && InOrder(ids)
  }

  predicate Carries(there: map<nat, StoredQuote>, sequence: nat, here: map<nat, StoredQuote>, ids: map<nat, nat>) {
    && ids.Keys == here.Keys
    && forall q | q in ids :: 1 <= ids[q] <= sequence && ids[q] in there && there[ids[q]] == here[q]
  }

  predicate Covers(there: map<nat, StoredQuote>, ids: map<nat, nat>) {
    forall q | q in there :: Named(ids, q)
  }

  predicate InOrder(ids: map<nat, nat>) {
    forall p, q | p in ids && q in ids && p < q :: ids[p] < ids[q]
  }

  predicate Named(ids: map<nat, nat>, q: nat) {
    exists p :: p in ids && ids[p] == q
  }

  predicate RowsMatch(id: Id, a: UpdateRow, b: Row, ids: map<nat, nat>) {
    && Scan(id, a) == b.req.(reused := false)
    && b.req.reused == (a.reused == Some(true))
    && a.nextAttemptAt == b.nextAttemptAt
    && (if a.lockedAt.Some? then a.lockedAt.value == b.lockedAt else b.lockedAt == ZERO_TIME && !a.status.InProgress?)
    && a.key == (if b.key == "" then None else Some(b.key))
    && (if a.quoteId.None? then b.quoteId == 0 else b.quoteId in ids && ids[b.quoteId] == a.quoteId.value)
  }

  predicate Related(t: Tables, s: Store, ids: map<nat, nat>) {
    && t.updates.Keys == s.rows.Keys
    && JournalsMatch(t, s, ids)
    && forall id | id in s.rows :: RowsMatch(id, t.updates[id], s.rows[id], ids)
  }

  predicate Extends(ids: map<nat, nat>, more: map<nat, nat>) {
    forall q | q in ids :: q in more && more[q] == ids[q]
  }

  /** The same operation in the database's quote ids. */
  function Rename(op: Op, ids: map<nat, nat>): Op {
    if op.Reuse? && op.quoteId in ids then op.(quoteId := ids[op.quoteId]) else op
  }

  lemma RowsMatchMore(t: Tables, s: Store, ids: map<nat, nat>, more: map<nat, nat>)
    requires Related(t, s, ids) && Extends(ids, more)
    ensures forall id | id in s.rows :: RowsMatch(id, t.updates[id], s.rows[id], more)
  {
    forall id | id in s.rows ensures RowsMatch(id, t.updates[id], s.rows[id], more) {
      assert RowsMatch(id, t.updates[id], s.rows[id], ids);
    }
  }

  /** A quote in one journal is in the other, under its renamed id. */
  lemma QuoteIsInBoth(t: Tables, s: Store, ids: map<nat, nat>, pair: Pair, rate: Rate, p: nat) returns (o: nat)
    requires JournalsMatch(t, s, ids) && Holds(t.quotes, p, pair, rate)
    ensures o in ids && ids[o] == p && Holds(s.quotes, o, pair, rate)
  {
    assert Named(ids, p);
    o :| o in ids && ids[o] == p;
  }

  lemma UpsertExisting(t: Tables, s: Store, ids: map<nat, nat>, pair: Pair, rate: Rate, r: nat)
    requires JournalsMatch(t, s, ids) && UniqueQuotes(s.quotes, s.nextQuoteId) && Holds(s.quotes, r, pair, rate)
    ensures Post(s, pair, rate) == (s, r) && r in ids
    ensures Upsert(t, pair, rate) == (t.(sequence := t.sequence + 1), ids[r])
  {
    PostIs(s, pair, rate);
    assert Holds(t.quotes, ids[r], pair, rate);
    var p := Upsert(t, pair, rate).1;
    var o := QuoteIsInBoth(t, s, ids, pair, rate, p);
    assert SameQuote(s.quotes[o], s.quotes[r].pair, s.quotes[r].rate);
  }

  lemma UpsertNew(t: Tables, s: Store, ids: map<nat, nat>, pair: Pair, rate: Rate)
    requires JournalsMatch(t, s, ids) && !exists r: nat :: Holds(s.quotes, r, pair, rate)
    ensures var p, q := t.sequence + 1, s.nextQuoteId + 1;
            && Post(s, pair, rate) == (s.(nextQuoteId := q, quotes := s.quotes[q := StoredQuote(pair, rate)]), q)
            && Upsert(t, pair, rate) == (t.(sequence := p, quotes := t.quotes[p := StoredQuote(pair, rate)]), p)
  {
    if p: nat :| Holds(t.quotes, p, pair, rate) {
      var o := QuoteIsInBoth(t, s, ids, pair, rate, p);
      assert false;
    }
  }

  /** Upsert and find-or-create agree, up to the new id's name. */
  lemma UpsertAgrees(t: Tables, s: Store, ids: map<nat, nat>, pair: Pair, rate: Rate) returns (more: map<nat, nat>)
    requires Related(t, s, ids) && UniqueQuotes(s.quotes, s.nextQuoteId)
    ensures var (u, p) := Upsert(t, pair, rate);
            var (v, q) := Post(s, pair, rate);
            Extends(ids, more) && Related(u, v, more) && q in more && more[q] == p
  {
    if r: nat :| Holds(s.quotes, r, pair, rate) {
      UpsertExisting(t, s, ids, pair, rate, r);
      more := ids;
    } else {
      UpsertNew(t, s, ids, pair, rate);
      NewQuoteMatches(t, s, ids, StoredQuote(pair, rate));
      more := ids[s.nextQuoteId + 1 := t.sequence + 1];
      RowsMatchMore(t, s, ids, more);
    }
  }

  /** A quote new to both goes in under the next id of each. */
  lemma NewQuoteMatches(t: Tables, s: Store, ids: map<nat, nat>, quote: StoredQuote)
    requires JournalsMatch(t, s, ids) && UniqueQuotes(s.quotes, s.nextQuoteId)
    ensures var p, q := t.sequence + 1, s.nextQuoteId + 1;
            && q !in ids && InOrder(ids[q := p])
            && Carries(t.quotes[p := quote], p, s.quotes[q := quote], ids[q := p])
            && Covers(t.quotes[p := quote], ids[q := p])
  {
    var p, q := t.sequence + 1, s.nextQuoteId + 1;
    assert forall o | o in ids :: o in s.quotes && o < q && ids[o] < p;
    CoversMore(t.quotes, ids, p, q, quote);
  }

  lemma CoversMore(there: map<nat, StoredQuote>, ids: map<nat, nat>, p: nat, q: nat, quote: StoredQuote)
    requires Covers(there, ids) && q !in ids
    ensures Covers(there[p := quote], ids[q := p])
  {
    var bigger := there[p := quote];
    forall r | r in bigger ensures Named(ids[q := p], r) {
      if r == p {
        assert ids[q := p][q] == r;
      } else {
        assert Named(ids, r);
        var o :| o in ids && ids[o] == r;
        assert ids[q := p][o] == r;
      }
    }
  }

  lemma InsertAgrees(t: Tables, s: Store, ids: map<nat, nat>, req: Request, key: string)
    requires Related(t, s, ids) && Consistent(s) && Possible(s, Submit(req, key))
    ensures Related(Insert(t, req, key).0, Create(s, req, key).0, ids) && Insert(t, req, key).1 == Create(s, req, key).1
  {
    if key != "" {
      if key in s.index {
        assert RowsMatch(s.index[key], t.updates[s.index[key]], s.rows[s.index[key]], ids);
      }
      forall id | id in t.updates && t.updates[id].key == Some(key) ensures key in s.index {
        assert RowsMatch(id, t.updates[id], s.rows[id], ids) && RowOk(s, id);
      }
    }
    var u, v := Insert(t, req, key).0, Create(s, req, key).0;
    forall id | id in v.rows ensures RowsMatch(id, u.updates[id], v.rows[id], ids) {
      if id in s.rows { assert RowsMatch(id, t.updates[id], s.rows[id], ids); }
    }
  }

  lemma ClaimedRowAgrees(id: Id, a: UpdateRow, b: Row, ids: map<nat, nat>, now: Time)
    requires RowsMatch(id, a, b, ids) && (b.req.status.Pending? || b.req.status.InProgress?)
    ensures RowsMatch(id, ClaimedUpdate(a, now), ClaimedRow(b, now), ids)
  {}

  lemma ClaimAgrees(t: Tables, s: Store, ids: map<nat, nat>, chosen: set<Id>, now: Time, visibleSince: Time)
    requires Related(t, s, ids) && Possible(s, Claim(chosen, now, visibleSince))
    ensures Related(ClaimUpdate(t, chosen, now), s.(rows := ClaimRows(s.rows, chosen, now)), ids)
  {
    var u, rows := ClaimUpdate(t, chosen, now), ClaimRows(s.rows, chosen, now);
    forall id | id in rows ensures RowsMatch(id, u.updates[id], rows[id], ids) {
      assert RowsMatch(id, t.updates[id], s.rows[id], ids);
      if id in chosen {
        assert id in Candidates(s.rows, now, visibleSince);
        ClaimedRowAgrees(id, t.updates[id], s.rows[id], ids, now);
      }
    }
  }

  /** The guarded UPDATE and the checked transition succeed together, and
      refuse with the same error. */
  lemma GuardAgrees(t: Tables, s: Store, ids: map<nat, nat>, id: Id, next: Status, now: Time)
    requires Related(t, s, ids) && next in {Succeeded, Failed, Pending}
    ensures Matches(t, id) <==> Transition(s, id, next, now).Ok?
    ensures !Matches(t, id) ==> Transition(s, id, next, now) == Err(Diagnose(t, id, next))
  {
    if id in s.rows { assert RowsMatch(id, t.updates[id], s.rows[id], ids); }
  }

  /** One row that changes to matching rows in both leaves the stores related. */
  lemma RowChangesAgree(t: Tables, s: Store, ids: map<nat, nat>, id: Id, a: UpdateRow, b: Row)
    requires Related(t, s, ids) && id in s.rows && RowsMatch(id, a, b, ids)
    ensures Related(t.(updates := t.updates[id := a]), s.(rows := s.rows[id := b]), ids)
  {
    var u, v := t.(updates := t.updates[id := a]), s.(rows := s.rows[id := b]);
    forall i | i in v.rows ensures RowsMatch(i, u.updates[i], v.rows[i], ids) {
      assert i != id ==> RowsMatch(i, t.updates[i], s.rows[i], ids);
    }
  }

  lemma PointAtAgrees(t: Tables, s: Store, ids: map<nat, nat>, id: Id, q: nat, reused: bool, now: Time)
    requires Related(t, s, ids) && Consistent(s) && q in ids && Matches(t, id)
    ensures Transition(s, id, Succeeded, now).Ok?
    ensures PointAt(t, id, ids[q], reused, now).1.Done?
    ensures Related(PointAt(t, id, ids[q], reused, now).0,
            Queue.Succeed(s, id, Transition(s, id, Succeeded, now).value, q, reused), ids)
  {
    GuardAgrees(t, s, ids, id, Succeeded, now);
    assert RowsMatch(id, t.updates[id], s.rows[id], ids);
    var u := PointAt(t, id, ids[q], reused, now).0;
    var v := Queue.Succeed(s, id, Transition(s, id, Succeeded, now).value, q, reused);
    RowChangesAgree(t, s, ids, id, u.updates[id], v.rows[id]);
  }

  lemma FailureAgrees(t: Tables, s: Store, ids: map<nat, nat>, id: Id, code: string, message: string, retryable: bool,
          next: Time, now: Time)
    requires Related(t, s, ids) && Consistent(s)
    ensures Related(TxFailure(t, id, code, message, retryable, next, now).0,
            CompleteFailure(s, id, code, message, retryable, next, now).0, ids)
    ensures TxFailure(t, id, code, message, retryable, next, now).1
            == CompleteFailure(s, id, code, message, retryable, next, now).1
  {
    GuardAgrees(t, s, ids, id, if retryable then Pending else Failed, now);
    if Matches(t, id) {
      assert RowsMatch(id, t.updates[id], s.rows[id], ids);
      var u := TxFailure(t, id, code, message, retryable, next, now).0;
      var v := CompleteFailure(s, id, code, message, retryable, next, now).0;
      RowChangesAgree(t, s, ids, id, u.updates[id], v.rows[id]);
    }
  }

  /** A granted success is the upsert and the guarded update, committed. */
  lemma GrantedSuccess(t: Tables, id: Id, pair: Pair, rate: Rate, now: Time)
    requires Matches(t, id)
    ensures var (u, p) := Upsert(t, pair, rate);
            p in u.quotes && u.updates == t.updates
                && TxSuccess(t, id, pair, rate, now) == PointAt(u, id, p, false, now)
  {}

  lemma SuccessAgrees(t: Tables, s: Store, ids: map<nat, nat>, id: Id, pair: Pair, rate: Rate, now: Time)
    returns (more: map<nat, nat>)
    requires Related(t, s, ids) && Consistent(s) && Admitted(rate)
    ensures Extends(ids, more)
    ensures Related(TxSuccess(t, id, pair, rate, now).0, CompleteSuccess(s, id, pair, rate, now).0, more)
    ensures TxSuccess(t, id, pair, rate, now).1 == CompleteSuccess(s, id, pair, rate, now).1
  {
    GuardAgrees(t, s, ids, id, Succeeded, now);
    if Matches(t, id) {
      GrantedSuccess(t, id, pair, rate, now);
      more := UpsertAgrees(t, s, ids, pair, rate);
      PostKeeps(s, pair, rate);
      var (v, q) := Post(s, pair, rate);
      PostIs(s, pair, rate);
      PointAtAgrees(Upsert(t, pair, rate).0, v, more, id, q, false, now);
    } else {
      more := ids;
      RefusalChangesNothing(t, Success(id, pair, rate, now));
    }
  }

  /** One operation, in both: same outcome, error included, and still related. */
  lemma StepAgrees(t: Tables, s: Store, ids: map<nat, nat>, op: Op) returns (more: map<nat, nat>)
    requires Related(t, s, ids) && Consistent(s) && Possible(s, op) && FromWorker(s, op)
    ensures Extends(ids, more)
    ensures Related(DbApply(t, Rename(op, ids)).0, Apply(s, op).0, more)
    ensures DbApply(t, Rename(op, ids)).1 == Apply(s, op).1
  {
    more := ids;
    match op
    case Submit(req, key) => InsertAgrees(t, s, ids, req, key);
    case Claim(chosen, now, visibleSince) => ClaimAgrees(t, s, ids, chosen, now, visibleSince);
    case Success(id, pair, rate, now) => more := SuccessAgrees(t, s, ids, id, pair, rate, now);
    case Reuse(id, q, now) =>
      GuardAgrees(t, s, ids, id, Succeeded, now);
      if Matches(t, id) { PointAtAgrees(t, s, ids, id, q, true, now); }
    case Failure(id, code, message, retryable, next, now) => FailureAgrees(t, s, ids, id, code, message, retryable,
      next, now);
  }

  ghost function Outcomes(s: Store, ops: seq<Op>): seq<Outcome>
    decreases |ops|
  {
    if ops == [] then [] else [Apply(s, ops[0]).1] + Outcomes(Apply(s, ops[0]).0, ops[1..])
  }

  ghost function DbExec(t: Tables, ops: seq<Op>): Tables
    decreases |ops|
  {
    if ops == [] then t else DbExec(DbApply(t, ops[0]).0, ops[1..])
  }

  ghost function DbOutcomes(t: Tables, ops: seq<Op>): seq<Outcome>
    decreases |ops|
  {
    if ops == [] then [] else [DbApply(t, ops[0]).1] + DbOutcomes(DbApply(t, ops[0]).0, ops[1..])
  }

  /** The two operations differ at most in the name of a reused quote. */
  predicate SameButQuoteId(a: Op, b: Op) {
    a == b || (a.Reuse? && b.Reuse? && b == a.(quoteId := b.quoteId))
  }

  lemma DbRunCons(t: Tables, op: Op, rest: seq<Op>)
    ensures DbExec(t, [op] + rest) == DbExec(DbApply(t, op).0, rest)
    ensures DbOutcomes(t, [op] + rest) == [DbApply(t, op).1] + DbOutcomes(DbApply(t, op).0, rest)
  {
    assert ([op] + rest)[1..] == rest;
  }

  lemma RunUnfold(s: Store, ops: seq<Op>)
    requires ops != []
    ensures Exec(s, ops) == Exec(Apply(s, ops[0]).0, ops[1..])
    ensures Outcomes(s, ops) == [Apply(s, ops[0]).1] + Outcomes(Apply(s, ops[0]).0, ops[1..])
  {}

  /** The operations differ at most in the names of reused quotes. */
  predicate SameRun(ops: seq<Op>, dbOps: seq<Op>) {
    |dbOps| == |ops| && forall i | 0 <= i < |ops| :: SameButQuoteId(ops[i], dbOps[i])
  }

  lemma SameRunCons(ops: seq<Op>, op: Op, rest: seq<Op>)
    requires ops != [] && SameButQuoteId(ops[0], op) && SameRun(ops[1..], rest)
    ensures SameRun(ops, [op] + rest)
  {
    forall i | 0 <= i < |ops| ensures SameButQuoteId(ops[i], ([op] + rest)[i]) {
      if i > 0 { assert SameButQuoteId(ops[1..][i - 1], rest[i - 1]); }
    }
  }

  /** Forward simulation over every run of clients and workers: the same
      operations get the same answers and leave the same rows and journal. */
  lemma {:induction false} DatabaseSimulatesMemory(t: Tables, s: Store, ids: map<nat, nat>, ops: seq<Op>)
    returns (dbOps: seq<Op>, more: map<nat, nat>)
    requires Related(t, s, ids) && Consistent(s) && WorkerRun(s, ops)
    ensures SameRun(ops, dbOps)
    ensures Related(DbExec(t, dbOps), Exec(s, ops), more) && Extends(ids, more)
    ensures DbOutcomes(t, dbOps) == Outcomes(s, ops)
    decreases |ops|
  {
    if ops == [] { return [], ids; }
    var op := Rename(ops[0], ids);
    var next := StepAgrees(t, s, ids, ops[0]);
    StepKeeps(s, ops[0]);
    var rest;
    rest, more := DatabaseSimulatesMemory(DbApply(t, op).0, Apply(s, ops[0]).0, next, ops[1..]);
    dbOps := [op] + rest;
    RunUnfold(s, ops);
    DbRunCons(t, op, rest);
    SameRunCons(ops, op, rest);
  }

  lemma EmptyStoresMatch()
    ensures Related(EMPTY_TABLES, EMPTY, map[]) && Consistent(EMPTY)
  {}

  // ------------------------------------------------------- what readers see

  /** Both repositories name the same latest quote. */
  lemma LatestAgrees(t: Tables, s: Store, ids: map<nat, nat>, pair: Pair, q: nat)
    requires JournalsMatch(t, s, ids) && q in ids
    ensures IsLatest(s.quotes, pair, q) <==> IsLatest(t.quotes, pair, ids[q])
  {
    if IsLatest(s.quotes, pair, q) {
      forall r | r in t.quotes && t.quotes[r].pair == pair ensures NotNewer(t.quotes, r, ids[q]) {
        assert Named(ids, r);
        var p :| p in ids && ids[p] == r;
        assert NotNewer(s.quotes, p, q);
      }
    }
    if IsLatest(t.quotes, pair, ids[q]) {
      forall p | p in s.quotes && s.quotes[p].pair == pair ensures NotNewer(s.quotes, p, q) {
        assert NotNewer(t.quotes, ids[p], ids[q]);
      }
    }
  }

  /** Lookups by key agree except for `reused`, which only the in-memory one reports. */
  lemma ByKeyAgrees(t: Tables, s: Store, ids: map<nat, nat>, key: string)
    requires Related(t, s, ids) && Consistent(s) && key != ""
    ensures SelectByKey(t, key) == match ByKey(s, key)
                                   case Ok(req) => Ok(req.(reused := false))
                                   case Err(e) => Err(e)
  {
    forall id | id in t.updates && t.updates[id].key == Some(key) ensures key in s.index && s.index[key] == id {
      assert RowsMatch(id, t.updates[id], s.rows[id], ids) && RowOk(s, id);
    }
    if key in s.index {
      assert RowsMatch(s.index[key], t.updates[s.index[key]], s.rows[s.index[key]], ids);
    }
  }

  /** Reads by id agree in full, `reused` and rate included. */
  lemma ByIdAgrees(t: Tables, s: Store, ids: map<nat, nat>, id: Id)
    requires Related(t, s, ids) && Consistent(s)
    ensures SelectById(t, id) == ById(s, id)
  {
    if id in s.rows { assert RowsMatch(id, t.updates[id], s.rows[id], ids) && RowOk(s, id); }
  }

  /** The claim's two WHERE clauses on the table. */
  function DueIn(t: Tables, now: Time): set<Id> {
    set id | id in t.updates && t.updates[id].status.Pending? && t.updates[id].nextAttemptAt <= now
  }

  function StuckIn(t: Tables, visibleSince: Time): set<Id> {
    set id | id in t.updates && t.updates[id].status.InProgress? && t.updates[id].lockedAt.Some?
        && t.updates[id].lockedAt.value < visibleSince
  }

  ghost function NextIn(t: Tables): Id -> Time {
    KeyOf(map id | id in t.updates :: t.updates[id].nextAttemptAt)
  }

  ghost function LockIn(t: Tables): Id -> Time {
    KeyOf(map id | id in t.updates :: if t.updates[id].lockedAt.Some? then t.updates[id].lockedAt.value else ZERO_TIME)
  }

  /** What ClaimBatch(limit, now, visibleSince) may claim of these tables. */
  ghost predicate MayClaim(t: Tables, chosen: set<Id>, limit: nat, now: Time, visibleSince: Time) {
    SplitMay(chosen, DueIn(t, now), StuckIn(t, visibleSince), limit, ByKeyOnly(NextIn(t)), LockIn(t))
  }

  /** Related stores have the same due and stuck rows, under the same keys. */
  lemma SameQueue(t: Tables, s: Store, ids: map<nat, nat>, now: Time, visibleSince: Time)
    requires Related(t, s, ids)
    ensures DueIn(t, now) == DueSet(s.rows, now) && StuckIn(t, visibleSince) == StuckSet(s.rows, visibleSince)
    ensures NextIn(t) == NextKey(s.rows) && LockIn(t) == LockKey(s.rows)
  {
    forall id | id in s.rows ensures SameInQueue(t.updates[id],
        s.rows[id]) { assert RowsMatch(id, t.updates[id], s.rows[id], ids); }
    SameSets(t, s, now, visibleSince);
    SameKeys(t, s);
  }

  predicate SameInQueue(a: UpdateRow, b: Row) {
    && a.status == b.req.status && a.nextAttemptAt == b.nextAttemptAt
    && (if a.lockedAt.Some? then a.lockedAt.value == b.lockedAt else b.lockedAt == ZERO_TIME && !a.status.InProgress?)
  }

  lemma SameSets(t: Tables, s: Store, now: Time, visibleSince: Time)
    requires t.updates.Keys == s.rows.Keys && forall id | id in s.rows :: SameInQueue(t.updates[id], s.rows[id])
    ensures DueIn(t, now) == DueSet(s.rows, now) && StuckIn(t, visibleSince) == StuckSet(s.rows, visibleSince)
  {
    forall id ensures id in DueIn(t, now)
        <==> id in DueSet(s.rows, now) { assert id in s.rows ==> SameInQueue(t.updates[id], s.rows[id]); }
    forall id ensures id in StuckIn(t, visibleSince) <==> id in StuckSet(s.rows, visibleSince) {
      assert id in s.rows ==> SameInQueue(t.updates[id], s.rows[id]);
    }
  }

  lemma SameKeys(t: Tables, s: Store)
    requires t.updates.Keys == s.rows.Keys && forall id | id in s.rows :: SameInQueue(t.updates[id], s.rows[id])
    ensures NextIn(t) == NextKey(s.rows) && LockIn(t) == LockKey(s.rows)
  {
    var next := map id | id in t.updates :: t.updates[id].nextAttemptAt;
    var lock := map id | id in t.updates :: if t.updates[id].lockedAt.Some? then t.updates[id].lockedAt.value
        else ZERO_TIME;
    forall id | id in s.rows ensures next[id] == s.rows[id].nextAttemptAt && lock[id] == s.rows[id].lockedAt {
      assert SameInQueue(t.updates[id], s.rows[id]);
    }
    assert next == map id | id in s.rows :: s.rows[id].nextAttemptAt;
    assert lock == map id | id in s.rows :: s.rows[id].lockedAt;
  }

  /** On related stores the tables' claim, ties left to SQL, can only be the
      in-memory one if and only if that claim is sure. */
  lemma ClaimsAgreeIff(t: Tables, s: Store, ids: map<nat, nat>, combined: set<Id>, limit: nat, now: Time,
          visibleSince: Time)
    requires Related(t, s, ids) && CombinedClaim(s.rows, combined, limit, now, visibleSince)
    ensures (forall chosen | MayClaim(t, chosen, limit, now, visibleSince) :: chosen == combined)
            <==> SureOnTable(s.rows, combined, limit, now, visibleSince)
  {
    SameQueue(t, s, ids, now, visibleSince);
    assert forall chosen ::
        MayClaim(t, chosen, limit, now, visibleSince) <==> DatabaseMayClaim(s.rows, chosen, limit, now, visibleSince);
    DatabaseClaimMatchesIff(s.rows, combined, limit, now, visibleSince);
  }

  // ----------------------------------------- batches claimed by the limit

  /** The in-memory run claims by limit: each Claim is the combined claim of
      `limits[i]` rows, and a sure one. */
  ghost predicate ClaimsByLimit(s: Store, ops: seq<Op>, limits: seq<nat>)
    requires |limits| == |ops|
    decreases |ops|
  {
    ops == [] || (ClaimByLimit(s, ops[0], limits[0]) && ClaimsByLimit(Apply(s, ops[0]).0, ops[1..], limits[1..]))
  }

  ghost predicate ClaimByLimit(s: Store, op: Op, limit: nat) {
    op.Claim? ==>
      && CombinedClaim(s.rows, op.chosen, limit, op.now, op.visibleSince)
      && SureOnTable(s.rows, op.chosen, limit, op.now, op.visibleSince)
  }

  /** Each Claim of the database's run is the one thing ClaimBatch can do with
      that limit there. */
  ghost predicate DbClaimsByLimit(t: Tables, ops: seq<Op>, limits: seq<nat>)
    requires |limits| == |ops|
    decreases |ops|
  {
    ops == [] || (DbClaimByLimit(t, ops[0], limits[0]) && DbClaimsByLimit(DbApply(t, ops[0]).0, ops[1..], limits[1..]))
  }

  ghost predicate DbClaimByLimit(t: Tables, op: Op, limit: nat) {
    op.Claim? ==> forall chosen :: MayClaim(t, chosen, limit, op.now, op.visibleSince) <==> chosen == op.chosen
  }

  lemma OnlyClaim(t: Tables, s: Store, ids: map<nat, nat>, op: Op, limit: nat)
    requires Related(t, s, ids) && ClaimByLimit(s, op, limit)
    ensures DbClaimByLimit(t, Rename(op, ids), limit)
  {
    if op.Claim? {
      ClaimsAgreeIff(t, s, ids, op.chosen, limit, op.now, op.visibleSince);
      KeysOrder(NextIn(t));
      var some := SplitExists(DueIn(t, op.now), StuckIn(t, op.visibleSince), limit, ByKeyOnly(NextIn(t)), LockIn(t));
      assert MayClaim(t, some, limit, op.now, op.visibleSince);
    }
  }

  lemma DbClaimsCons(t: Tables, op: Op, rest: seq<Op>, limits: seq<nat>)
    requires |limits| == |rest| + 1
    requires DbClaimByLimit(t, op, limits[0]) && DbClaimsByLimit(DbApply(t, op).0, rest, limits[1..])
    ensures DbClaimsByLimit(t, [op] + rest, limits)
  {
    assert ([op] + rest)[1..] == rest;
  }

  /** Forward simulation with ClaimBatch(limit, ..) as an operation of both
      repositories: where its claims are sure, the database has no choice but the rows the in-memory repository takes,
          and
      every answer and both stores agree over every run. */
  lemma {:induction false} BatchesSimulate(t: Tables, s: Store, ids: map<nat, nat>, ops: seq<Op>, limits: seq<nat>)
    returns (dbOps: seq<Op>, more: map<nat, nat>)
    requires Related(t, s, ids) && Consistent(s) && WorkerRun(s, ops)
    requires |limits| == |ops| && ClaimsByLimit(s, ops, limits)
    ensures SameRun(ops, dbOps)
    ensures DbClaimsByLimit(t, dbOps, limits)
    ensures Related(DbExec(t, dbOps), Exec(s, ops), more) && Extends(ids, more)
    ensures DbOutcomes(t, dbOps) == Outcomes(s, ops)
    decreases |ops|
  {
    if ops == [] { return [], ids; }
    var op := Rename(ops[0], ids);
    var next := StepAgrees(t, s, ids, ops[0]);
    StepKeeps(s, ops[0]);
    OnlyClaim(t, s, ids, ops[0], limits[0]);
    var rest;
    rest, more := BatchesSimulate(DbApply(t, op).0, Apply(s, ops[0]).0, next, ops[1..], limits[1..]);
    dbOps := [op] + rest;
    RunUnfold(s, ops);
    DbRunCons(t, op, rest);
    SameRunCons(ops, op, rest);
    DbClaimsCons(t, op, rest, limits);
  }
}
