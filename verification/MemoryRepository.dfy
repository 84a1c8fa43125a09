/** The in-memory repository: maps of mutable records, proved against the
    store operations of module Queue. */
module MemoryRepository {
  import opened Wrappers
  import opened Domain
  import opened Sets
  import opened Queue
  import opened Claims

  class Record {
    var req: Request
    const key: string
    var nextAttemptAt: Time
    var lockedAt: Time
    var quoteId: nat

    constructor (req: Request, key: string)
      ensures Value() == Row(req, key, req.createdAt, ZERO_TIME, 0)
    {
      this.req, this.key, nextAttemptAt, lockedAt, quoteId := req, key, req.createdAt, ZERO_TIME, 0;
    }

    ghost function Value(): Row
      reads this
    {
      Row(req, key, nextAttemptAt, lockedAt, quoteId)
    }
  }

  class Repository {
    var records: map<Id, Record>
    var idempotencyIndex: map<string, Id>
    var quotes: map<nat, StoredQuote>
    var nextQuoteId: nat

    /** Distinct ids have distinct records, the index leads to records, and
        the journal's keys are unique. */
    ghost predicate Valid()
      reads this, records.Values
    {
      && (forall i, j | i in records && j in records && i != j :: records[i] != records[j])
      && (forall i | i in records :: records[i].req.id == i)
      && (forall k | k in idempotencyIndex :: idempotencyIndex[k] in records)
      && UniqueQuotes(quotes, nextQuoteId)
    }

    ghost function Rows(): map<Id, Row>
      reads this, records.Values
    {
      map id | id in records :: records[id].Value()
    }

    ghost function Value(): Store
      reads this, records.Values
    {
      Store(Rows(), idempotencyIndex, quotes, nextQuoteId)
    }

    /** Writing through one record changes one row. */
    twostate lemma OneRowChanged(id: Id)
      requires old(Valid()) && records == old(records) && id in records
      requires forall i | i in records && i != id :: unchanged(records[i])
      ensures Rows() == old(Rows())[id := records[id].Value()]
    {
      var expected := old(Rows())[id := records[id].Value()];
      assert Rows().Keys == expected.Keys;
      forall i | i in Rows() ensures Rows()[i] == expected[i] {
        assert i != id ==> records[i].Value() == old(records[i].Value());
      }
    }

    constructor ()
      ensures Valid() && Value() == EMPTY
    {
      records, idempotencyIndex, quotes, nextQuoteId := map[], map[], map[], 0;
    }

    method CreateUpdateRequest(req: Request, key: string) returns (outcome: Outcome)
      requires Valid()
      modifies this
      ensures Valid() && fresh(records.Values - old(records.Values))
      ensures (Value(), outcome) == Create(old(Value()), req, key)
    {
      if key != "" && key in idempotencyIndex {
        return Refused(KeyExists);
      }
      var record := new Record(req, key);
      records := records[req.id := record];
      if key != "" {
        idempotencyIndex := idempotencyIndex[key := req.id];
      }
      assert Rows() == old(Rows())[req.id := Row(req, key, req.createdAt, ZERO_TIME, 0)];
      return Queue.Done;
    }

    method GetByIdempotencyKey(key: string) returns (r: Result<Request, Error>)
      requires Valid()
      ensures r == ByKey(Value(), key)
    {
      if key !in idempotencyIndex {
        return Err(NotFound);
      }
      assert Rows()[idempotencyIndex[key]] == records[idempotencyIndex[key]].Value();
      return Ok(records[idempotencyIndex[key]].req);
    }

    /** Collect the candidates in map order, sort, truncate; then compute every
        transition before writing any. */
    method ClaimBatch(limit: nat, now: Time, visibleSince: Time) returns (claimed: seq<Request>)
      requires Valid()
      modifies records.Values
      ensures Valid() && unchanged(this)
      ensures IsBatch(old(Rows()), Rows(), claimed, limit, now, visibleSince)
    {
      ghost var rows := Rows();
      var candidates := CollectCandidates(now, visibleSince);
      ghost var all := candidates;
      if |candidates| > limit {
        candidates := candidates[..limit];
      }
      claimed := ClaimAll(candidates, now);
      TruncatedIsBatch(rows, Rows(), all, candidates, claimed, limit, now, visibleSince);
    }

    method ClaimAll(candidates: seq<Id>, now: Time) returns (claimed: seq<Request>)
      requires Valid() && Ordered(Rows(), candidates)
      modifies records.Values
      ensures Valid() && unchanged(this)
      ensures Rows() == ClaimRows(old(Rows()), Elements(candidates), now)
      ensures ClaimsOf(old(Rows()), candidates, claimed, now)
    {
      claimed := ComputeClaims(candidates, now);
      WriteClaims(candidates, claimed, now);
    }

    method ComputeClaims(candidates: seq<Id>, now: Time) returns (claimed: seq<Request>)
      requires Valid() && Ordered(Rows(), candidates)
      ensures ClaimsOf(Rows(), candidates, claimed, now)
    {
      claimed := [];
      for i := 0 to |candidates|
        invariant |claimed| == i
        invariant forall j | 0 <= j < i ::
                    claimed[j] == ClaimedRow(Rows()[candidates[j]], now).req && claimed[j].id == candidates[j]
      {
        var req := records[candidates[i]].req;
        assert candidates[i] in Rows();
        assert Rows()[candidates[i]] == records[candidates[i]].Value();
        claimed := claimed + [if req.status.Pending?
                              then req.(status := InProgress, updatedAt := now, attempts := req.attempts + 1)
                              else req.(updatedAt := now)];
      }
    }

    method WriteClaims(candidates: seq<Id>, claimed: seq<Request>, now: Time)
      requires Valid() && Ordered(Rows(), candidates) && ClaimsOf(Rows(), candidates, claimed, now)
      modifies records.Values
      ensures Valid() && unchanged(this)
      ensures Rows() == ClaimRows(old(Rows()), Elements(candidates), now)
    {
      ghost var rows := Rows();
      assert rows == ClaimRows(rows, Elements(candidates[..0]), now);
      for i := 0 to |candidates|
        invariant unchanged(this) && Valid()
        invariant Rows() == ClaimRows(rows, Elements(candidates[..i]), now)
      {
        ClaimOneMore(rows, candidates, i, now);
        WriteClaim(candidates[i], claimed[i], now);
      }
      assert candidates[..|candidates|] == candidates;
    }

    method WriteClaim(id: Id, req: Request, now: Time)
      requires Valid() && id in records && req.id == id
      modifies records.Values
      ensures Valid() && unchanged(this)
      ensures Rows() == old(Rows())[id := old(Rows())[id].(req := req, lockedAt := now)]
    {
      var record := records[id];
      record.req, record.lockedAt := req, now;
      OneRowChanged(id);
    }

    /** The eligible rows, sorted by next attempt and id. */
    method CollectCandidates(now: Time, visibleSince: Time) returns (candidates: seq<Id>)
      requires Valid()
      ensures Ordered(Rows(), candidates) && Elements(candidates) == Candidates(Rows(), now, visibleSince)
    {
      var remaining := records.Keys;
      candidates := [];
      while remaining != {}
        invariant remaining <= records.Keys
        invariant Ordered(Rows(), candidates)
        invariant Elements(candidates) == Candidates(Rows(), now, visibleSince) - remaining
        decreases |remaining|
      {
        ghost var some := Pick(remaining);
        var id: Id :| id in remaining;
        var record := records[id];
        assert Rows()[id] == record.Value();
        var take := match record.req.status {
          case Pending => record.nextAttemptAt <= now
          case InProgress => record.lockedAt < visibleSince
          case _ => false
        };
        CollectOne(Rows(), now, visibleSince, Elements(candidates), remaining, id);
        if take {
          candidates := InsertInOrder(candidates, id);
        }
        remaining := remaining - {id};
      }
    }

    /** One step of the sort: put a new id where it belongs. */
    method InsertInOrder(order: seq<Id>, id: Id) returns (r: seq<Id>)
      requires Valid() && Ordered(Rows(), order) && id in records && id !in Elements(order)
      ensures Ordered(Rows(), r) && Elements(r) == Elements(order) + {id}
    {
      var p := 0;
      while p < |order| && (records[order[p]].nextAttemptAt < records[id].nextAttemptAt
                            || (records[order[p]].nextAttemptAt == records[id].nextAttemptAt && order[p] < id))
        invariant 0 <= p <= |order|
        invariant p > 0 ==> Precedes(Rows(), order[p - 1], id)
      {
        p := p + 1;
      }
      r := order[..p] + [id] + order[p..];
      InsertedInOrder(Rows(), order, p, id);
    }

    /** Look the row up and check the move with the status machine. */
    method TransitionRecord(id: Id, next: Status, now: Time) returns (r: Result<Request, Error>)
      requires Valid()
      ensures r == Transition(Value(), id, next, now) && (r.Ok? ==> id in records)
    {
      if id !in records {
        return Err(NotFound);
      }
      return records[id].req.TransitionTo(next, now);
    }

    method CompleteSuccess(id: Id, pair: Pair, rate: Rate, now: Time) returns (outcome: Outcome)
      requires Valid()
      modifies this`quotes, this`nextQuoteId, records.Values
      ensures Valid() && records == old(records)
      ensures (Value(), outcome) == Queue.CompleteSuccess(old(Value()), id, pair, rate, now)
    {
      var r := TransitionRecord(id, Succeeded, now);
      if r.Err? {
        return Refused(r.error);
      }
      var next := r.value.(errorCode := "", errorMessage := "", reused := false);
      var quoteId := FindOrCreateQuote(pair, rate);
      WriteRow(id, next, quoteId);
      return Queue.Done;
    }

    method WriteRow(id: Id, next: Request, quoteId: nat)
      requires Valid() && id in records && next.id == id
      modifies records.Values
      ensures Valid() && unchanged(this)
      ensures Rows() == old(Rows())[id := old(Rows())[id].(req := next, quoteId := quoteId)]
    {
      var record := records[id];
      record.quoteId := quoteId;
      record.req := next;
      OneRowChanged(id);
    }

    method FindOrCreateQuote(pair: Pair, rate: Rate) returns (quoteId: nat)
      requires Valid()
      modifies this`quotes, this`nextQuoteId
      ensures Valid() && records == old(records)
      ensures (Value(), quoteId) == Post(old(Value()), pair, rate)
      ensures && quoteId in quotes && quotes[quoteId].pair == pair
              && quotes[quoteId].rate.provider == rate.provider && quotes[quoteId].rate.quotedAt == rate.quotedAt
    {
      PostIs(Value(), pair, rate);
      var found := FindQuote(pair, rate);
      if found.Some? {
        return found.value;
      }
      nextQuoteId := nextQuoteId + 1;
      quotes := quotes[nextQuoteId := StoredQuote(pair, rate)];
      assert Rows() == old(Rows());
      return nextQuoteId;
    }

    method FindQuote(pair: Pair, rate: Rate) returns (found: Option<nat>)
      requires Valid()
      ensures found.Some? ==> Holds(quotes, found.value, pair, rate)
      ensures found.None? ==> forall q: nat :: !Holds(quotes, q, pair, rate)
      ensures found.Some? ==>
                && found.value in quotes && quotes[found.value].pair == pair
                && quotes[found.value].rate.provider == rate.provider
                && quotes[found.value].rate.quotedAt == rate.quotedAt
      ensures found.None? ==>
                forall q | q in quotes ::
                  quotes[q].pair != pair || quotes[q].rate.provider != rate.provider
                  || quotes[q].rate.quotedAt != rate.quotedAt
    {
      var remaining := quotes.Keys;
      while remaining != {}
        invariant remaining <= quotes.Keys
        invariant forall q | q in quotes && q !in remaining :: !SameQuote(quotes[q], pair, rate)
        decreases |remaining|
      {
        NonEmpty(remaining);
        var q: nat :| q in remaining;
        if quotes[q].pair == pair && quotes[q].rate.provider == rate.provider
            && quotes[q].rate.quotedAt == rate.quotedAt {
          return Some(q);
        }
        remaining := remaining - {q};
      }
      return None;
    }

    method CompleteSuccessReuse(id: Id, quoteId: nat, now: Time) returns (outcome: Outcome)
      requires Valid()
      modifies records.Values
      ensures Valid() && unchanged(this)
      ensures (Value(), outcome) == Queue.CompleteSuccessReuse(old(Value()), id, quoteId, now)
    {
      var r := TransitionRecord(id, Succeeded, now);
      if r.Err? {
        return Refused(r.error);
      }
      WriteRow(id, r.value.(errorCode := "", errorMessage := "", reused := true), quoteId);
      return Queue.Done;
    }

    method CompleteFailure(id: Id, code: string, message: string, retryable: bool, nextAttemptAt: Time, now: Time)
      returns (outcome: Outcome)
      requires Valid()
      modifies records.Values
      ensures Valid() && unchanged(this)
      ensures (Value(), outcome) == Queue.CompleteFailure(old(Value()), id, code, message, retryable, nextAttemptAt,
              now)
    {
      var r := TransitionRecord(id, if retryable then Pending else Failed, now);
      if r.Err? {
        return Refused(r.error);
      }
      var record := records[id];
      record.req := r.value.(errorCode := code, errorMessage := message);
      if retryable {
        record.nextAttemptAt := nextAttemptAt;
      }
      OneRowChanged(id);
      return Queue.Done;
    }

    method GetUpdateByID(id: Id) returns (r: Result<(Request, Option<Rate>), Error>)
      requires Valid()
      ensures r == ById(Value(), id)
    {
      if id !in records {
        return Err(NotFound);
      }
      var record := records[id];
      if record.quoteId == 0 {
        return Ok((record.req, None));
      }
      return Ok((record.req, Some(if record.quoteId in quotes then quotes[record.quoteId].rate else ZERO_RATE)));
    }

    /** One scan in any order keeps the best so far: latest quotedAt, then id. */
    method GetLatestQuote(pair: Pair) returns (r: Result<(Rate, nat), Error>)
      requires Valid()
      ensures r.Ok? ==> IsLatest(quotes, pair, r.value.1) && r.value.0 == quotes[r.value.1].rate
      ensures r.Err? ==> r.error == NotFound && forall q | q in quotes :: quotes[q].pair != pair
    {
      var remaining := quotes.Keys;
      var bestId, best, found := 0, ZERO_RATE, false;
      while remaining != {}
        invariant remaining <= quotes.Keys
        invariant found ==> bestId in quotes && quotes[bestId].pair == pair && best == quotes[bestId].rate
        invariant forall q | q in quotes && q !in remaining && quotes[q].pair == pair ::
                    found && NotNewer(quotes, q, bestId)
        decreases |remaining|
      {
        NonEmpty(remaining);
        var q: nat :| q in remaining;
        remaining := remaining - {q};
        var rate := quotes[q].rate;
        if quotes[q].pair == pair
           && (!found || rate.quotedAt > best.quotedAt || (rate.quotedAt == best.quotedAt && q > bestId))
        {
          bestId, best, found := q, rate, true;
        }
      }
      if !found {
        return Err(NotFound);
      }
      return Ok((best, bestId));
    }
  }

  /** One more row looked at. */
  lemma CollectOne(rows: map<Id, Row>, now: Time, visibleSince: Time, found: set<Id>, remaining: set<Id>, id: Id)
    requires found == Candidates(rows, now, visibleSince) - remaining && id in remaining && remaining <= rows.Keys
    ensures id !in found
    ensures Candidates(rows, now, visibleSince) - (remaining - {id})
            == if Eligible(rows[id], now, visibleSince) then found + {id} else found
  {}

  /** An id put between its neighbours keeps the list ordered. */
  lemma InsertedInOrder(rows: map<Id, Row>, order: seq<Id>, p: nat, id: Id)
    requires Ordered(rows, order) && p <= |order| && id in rows && id !in Elements(order)
    requires p > 0 ==> Precedes(rows, order[p - 1], id)
    requires p < |order| ==> !Precedes(rows, order[p], id)
    ensures Ordered(rows, order[..p] + [id] + order[p..])
    ensures Elements(order[..p] + [id] + order[p..]) == Elements(order) + {id}
  {
    InsertedElements(order, p, id);
    var r := order[..p] + [id] + order[p..];
    assert p < |order| ==> order[p] in Elements(order);
    forall i, j | 0 <= i < j < |r| ensures Precedes(rows, r[i], r[j]) {
      assert i < p - 1 ==> Precedes(rows, order[i], order[p - 1]);
      assert j > p + 1 ==> Precedes(rows, order[p], order[j - 1]);
    }
  }

  lemma InsertedElements(order: seq<Id>, p: nat, id: Id)
    requires p <= |order|
    ensures Elements(order[..p] + [id] + order[p..]) == Elements(order) + {id}
  {
    var r := order[..p] + [id] + order[p..];
    assert forall i | 0 <= i < |r| :: r[i] == if i < p then order[i] else if i == p then id else order[i - 1];
    forall x | x in Elements(r) ensures x in Elements(order) + {id} {
      var i :| 0 <= i < |r| && r[i] == x;
      assert i != p ==> x == order[if i < p then i else i - 1];
    }
    forall x | x in Elements(order) + {id} ensures x in Elements(r) {
      if x == id {
        assert r[p] == x;
      } else {
        var i :| 0 <= i < |order| && order[i] == x;
        assert r[if i < p then i else i + 1] == x;
      }
    }
  }

  /** The request each candidate is claimed as. */
  predicate ClaimsOf(rows: map<Id, Row>, candidates: seq<Id>, claimed: seq<Request>, now: Time) {
    && |claimed| == |candidates|
    && forall j | 0 <= j < |candidates| ::
         candidates[j] in rows && claimed[j] == ClaimedRow(rows[candidates[j]], now).req
             && claimed[j].id == candidates[j]
  }

  /** The claimed requests, in priority order, are the combined claim; their
      rows are claimed and no other row changes. */
  ghost predicate IsBatch(rows: map<Id, Row>, after: map<Id, Row>, claimed: seq<Request>, limit: nat, now: Time,
          visibleSince: Time) {
    var order := Ids(claimed);
    && Ordered(rows, order)
    && CombinedClaim(rows, Elements(order), limit, now, visibleSince)
    && after == ClaimRows(rows, Elements(order), now)
    && forall i | 0 <= i < |claimed| :: claimed[i] == after[order[i]].req
  }

  lemma TruncatedIsBatch(rows: map<Id, Row>, after: map<Id, Row>, all: seq<Id>, order: seq<Id>, claimed: seq<Request>,
                         limit: nat, now: Time, visibleSince: Time)
    requires Ordered(rows, all) && Elements(all) == Candidates(rows, now, visibleSince)
    requires order == if |all| > limit then all[..limit] else all
    requires after == ClaimRows(rows, Elements(order), now) && ClaimsOf(rows, order, claimed, now)
    ensures IsBatch(rows, after, claimed, limit, now, visibleSince)
  {
    PrefixIsCombinedClaim(rows, all, limit, now, visibleSince);
    assert all[..|all|] == all;
    assert Ids(claimed) == order;
    assert forall j | 0 <= j < |order| :: order[j] in Elements(order);
  }

  /** The elements of an ordered list are added one at a time. */
  lemma NotYet(rows: map<Id, Row>, order: seq<Id>, i: nat)
    requires Ordered(rows, order) && i < |order|
    ensures order[i] !in Elements(order[..i])
    ensures Elements(order[..i + 1]) == Elements(order[..i]) + {order[i]}
  {
    assert forall j | 0 <= j < i :: Precedes(rows, order[j], order[i]);
    assert order[..i + 1] == order[..i] + [order[i]];
    var longer := order[..i + 1];
    assert longer[i] == order[i] && forall j | 0 <= j < i :: longer[j] == order[..i][j];
  }

  lemma ClaimOneMore(rows: map<Id, Row>, order: seq<Id>, i: nat, now: Time)
    requires Ordered(rows, order) && i < |order|
    ensures ClaimRows(rows, Elements(order[..i + 1]), now)
            == ClaimRows(rows, Elements(order[..i]), now)[order[i] := ClaimedRow(rows[order[i]], now)]
    ensures ClaimRows(rows, Elements(order[..i]), now)[order[i]] == rows[order[i]]
  {
    NotYet(rows, order, i);
  }

  function Ids(reqs: seq<Request>): seq<Id> {
    seq(|reqs|, i requires 0 <= i < |reqs| => reqs[i].id)
  }
}
