/** The operations of the queue column by column: what each writes, what it
    leaves as it was, and when it refuses, with nothing named that the
    operations themselves are made of. */
module Columns {
  import opened Wrappers
  import opened Domain
  import opened Queue
  import opened Claims
  import opened MemoryRepository

  lemma CreateIs(s: Store, req: Request, key: string)
    ensures var (t, outcome) := Create(s, req, key);
            if key != "" && key in s.index then t == s && outcome == Refused(KeyExists)
            else
              && outcome == Done && t.quotes == s.quotes && t.nextQuoteId == s.nextQuoteId
              && t.rows.Keys == s.rows.Keys + {req.id}
              && (forall id | id in s.rows && id != req.id :: t.rows[id] == s.rows[id])
              && t.rows[req.id].req == req && t.rows[req.id].key == key
              && t.rows[req.id].nextAttemptAt == req.createdAt
              && t.rows[req.id].lockedAt == 0 && t.rows[req.id].quoteId == 0
              && (forall k :: k in t.index <==> k in s.index || (k == key && key != ""))
              && (forall k | k in t.index :: t.index[k] == if k == key && key != "" then req.id else s.index[k])
  {}

  /** A new request: pending, unclaimed, unanswered. */
  lemma NewRequestIs(id: Id, pair: Pair, now: Time)
    ensures var req := NewRequest(id, pair, now);
            && req.id == id && req.pair == pair && req.status == Pending && req.createdAt == now && req.updatedAt == now
            && req.attempts == 0 && req.errorCode == "" && req.errorMessage == "" && !req.reused
  {}

  /** What a claim makes of one row. */
  lemma ClaimIs(rows: map<Id, Row>, chosen: set<Id>, now: Time, id: Id)
    requires id in rows && id in chosen && (rows[id].req.status == Pending || rows[id].req.status == InProgress)
    ensures var before, after := rows[id], ClaimRows(rows, chosen, now)[id];
            && after.req.status == InProgress && after.lockedAt == now && after.req.updatedAt == now
            && (before.req.status == Pending ==> after.req.attempts == before.req.attempts + 1)
            && (before.req.status == InProgress ==> after.req.attempts == before.req.attempts)
            && after.req.id == before.req.id && after.req.pair == before.req.pair
            && after.req.createdAt == before.req.createdAt && after.req.errorCode == before.req.errorCode
            && after.req.errorMessage == before.req.errorMessage && after.req.reused == before.req.reused
            && after.key == before.key && after.nextAttemptAt == before.nextAttemptAt && after.quoteId == before.quoteId
  {}

  /** The batch a claim returns: of the rows pending and due by now, and those
      in progress and locked before visibleSince, as many as the limit allows,
      in the order of (nextAttemptAt, id), none left out that comes before one
      taken; only their rows change, each to the claim above. */
  lemma BatchIs(rows: map<Id, Row>, after: map<Id, Row>, claimed: seq<Request>, limit: nat, now: Time,
          visibleSince: Time)
    requires IsBatch(rows, after, claimed, limit, now, visibleSince)
    ensures after.Keys == rows.Keys && |claimed| <= limit
    ensures forall i | 0 <= i < |claimed| :: claimed[i].id in rows && after[claimed[i].id].req == claimed[i]
    ensures forall i | 0 <= i < |claimed| ::
              var row := rows[claimed[i].id];
              (row.req.status == Pending && row.nextAttemptAt <= now)
                  || (row.req.status == InProgress && row.lockedAt < visibleSince)
    ensures forall i, j | 0 <= i < j < |claimed| ::
              var a, b := rows[claimed[i].id], rows[claimed[j].id];
              a.nextAttemptAt < b.nextAttemptAt || (a.nextAttemptAt == b.nextAttemptAt && claimed[i].id < claimed[j].id)
    ensures forall y | y in rows && (forall i | 0 <= i < |claimed| :: claimed[i].id != y) ::
              after[y] == rows[y]
    ensures forall y | y in rows && (forall i | 0 <= i < |claimed| :: claimed[i].id != y)
                       && ((rows[y].req.status == Pending && rows[y].nextAttemptAt <= now)
                           || (rows[y].req.status == InProgress && rows[y].lockedAt < visibleSince)) ::
              && |claimed| == limit
              && forall i | 0 <= i < |claimed| ::
                   var a := rows[claimed[i].id];
                   a.nextAttemptAt < rows[y].nextAttemptAt
                       || (a.nextAttemptAt == rows[y].nextAttemptAt && claimed[i].id < y)
  {
    var order := Ids(claimed);
    var all := Candidates(rows, now, visibleSince);
    ElementsSize(rows, order);
    forall i | 0 <= i < |claimed| ensures claimed[i].id in Elements(order)
        && claimed[i].id in all { assert order[i] == claimed[i].id; }
    forall i, j | 0 <= i < j < |claimed| ensures Precedes(rows, claimed[i].id, claimed[j].id) {
      assert Precedes(rows, order[i], order[j]);
    }
    forall y | y in rows && (forall i | 0 <= i < |claimed| :: claimed[i].id != y) ensures y !in Elements(order) {}
    forall y | y in all && y !in Elements(order) ensures LeftOut(rows, claimed, limit, y) {
      LeftOutIs(rows, claimed, limit, all, y);
    }
  }

  predicate LeftOut(rows: map<Id, Row>, claimed: seq<Request>, limit: nat, y: Id)
    requires y in rows && forall i | 0 <= i < |claimed| :: claimed[i].id in rows
  {
    && |claimed| == limit
    && forall i | 0 <= i < |claimed| ::
         var a := rows[claimed[i].id];
         a.nextAttemptAt < rows[y].nextAttemptAt || (a.nextAttemptAt == rows[y].nextAttemptAt && claimed[i].id < y)
  }

  lemma LeftOutIs(rows: map<Id, Row>, claimed: seq<Request>, limit: nat, all: set<Id>, y: Id)
    requires all <= rows.Keys && Ordered(rows, Ids(claimed)) && y in all && y !in Elements(Ids(claimed))
    requires TopK(Elements(Ids(claimed)), all, limit, ByKeyThenId(NextKey(rows)))
    requires forall i | 0 <= i < |claimed| :: claimed[i].id in rows
    ensures LeftOut(rows, claimed, limit, y)
  {
    var order := Ids(claimed);
    var taken := Elements(order);
    ElementsSize(rows, order);
    if |taken| == |all| { Sets.SubsetSize(taken, all); }
    forall i | 0 <= i < |claimed| ensures !ByKeyThenId(NextKey(rows))(y, claimed[i].id) && claimed[i].id != y {
      assert order[i] in taken;
    }
  }

  /** A posted quote closes its row: only in progress, else an error and nothing written. */
  lemma SuccessIs(s: Store, id: Id, pair: Pair, rate: Rate, now: Time)
    ensures var (t, outcome) := CompleteSuccess(s, id, pair, rate, now);
            && (id !in s.rows ==> t == s && outcome == Refused(NotFound))
            && (id in s.rows && s.rows[id].req.status != InProgress ==>
                  t == s && outcome == Refused(InvalidTransition(s.rows[id].req.status, Succeeded)))
            && (id in s.rows && s.rows[id].req.status == InProgress ==>
                  && outcome == Done && t.index == s.index && t.rows.Keys == s.rows.Keys
                  && (forall i | i in s.rows && i != id :: t.rows[i] == s.rows[i])
                  && ClosedWell(s.rows[id], t.rows[id], now, false))
  {}

  /** A reuse closes its row and leaves the journal alone. */
  lemma ReuseIs(s: Store, id: Id, quoteId: nat, now: Time)
    ensures var (t, outcome) := CompleteSuccessReuse(s, id, quoteId, now);
            && t.quotes == s.quotes && t.nextQuoteId == s.nextQuoteId
            && (id !in s.rows ==> t == s && outcome == Refused(NotFound))
            && (id in s.rows && s.rows[id].req.status != InProgress ==>
                  t == s && outcome == Refused(InvalidTransition(s.rows[id].req.status, Succeeded)))
            && (id in s.rows && s.rows[id].req.status == InProgress ==>
                  && outcome == Done && t.index == s.index && t.rows.Keys == s.rows.Keys
                  && (forall i | i in s.rows && i != id :: t.rows[i] == s.rows[i])
                  && ClosedWell(s.rows[id], t.rows[id], now, true) && t.rows[id].quoteId == quoteId)
  {}

  /** Succeeded, errors cleared; bookkeeping, attempts and identity as before. */
  predicate ClosedWell(before: Row, after: Row, now: Time, reused: bool) {
    && after.req.status == Succeeded && after.req.updatedAt == now && after.req.reused == reused
    && after.req.errorCode == "" && after.req.errorMessage == ""
    && after.req.id == before.req.id && after.req.pair == before.req.pair && after.req.createdAt == before.req.createdAt
    && after.req.attempts == before.req.attempts && after.key == before.key
    && after.nextAttemptAt == before.nextAttemptAt && after.lockedAt == before.lockedAt
  }

  /** A failure sends the row back to pending with a new due time, or fails it and leaves the due time. */
  lemma FailureIs(s: Store, id: Id, code: string, message: string, retryable: bool, nextAttemptAt: Time, now: Time)
    ensures var (t, outcome) := CompleteFailure(s, id, code, message, retryable, nextAttemptAt, now);
            var status := if retryable then Pending else Failed;
            && t.quotes == s.quotes && t.nextQuoteId == s.nextQuoteId && t.index == s.index
            && (id !in s.rows ==> t == s && outcome == Refused(NotFound))
            && (id in s.rows && s.rows[id].req.status != InProgress ==>
                  t == s && outcome == Refused(InvalidTransition(s.rows[id].req.status, status)))
            && (id in s.rows && s.rows[id].req.status == InProgress ==>
                  && outcome == Done && t.rows.Keys == s.rows.Keys
                  && (forall i | i in s.rows && i != id :: t.rows[i] == s.rows[i])
                  && (var before, after := s.rows[id], t.rows[id];
                      && after.req.status == status && after.req.updatedAt == now
                      && after.req.errorCode == code && after.req.errorMessage == message
                      && after.nextAttemptAt == (if retryable then nextAttemptAt else before.nextAttemptAt)
                      && after.req.id == before.req.id && after.req.pair == before.req.pair
                      && after.req.createdAt == before.req.createdAt && after.req.attempts == before.req.attempts
                      && after.req.reused == before.req.reused && after.key == before.key
                      && after.lockedAt == before.lockedAt && after.quoteId == before.quoteId))
  {}
}
