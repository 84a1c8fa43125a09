/** The database repository as it runs: statements in order, and a
    transaction that puts the tables back when its update is refused. */
module PostgresRepository {
  import opened Wrappers
  import opened Domain
  import opened Queue
  import opened Postgres

  class Repository {
    var updates: map<Id, UpdateRow>
    var quotes: map<nat, StoredQuote>
    var sequence: nat

    /** The unique index on (provider, base, quote, quoted_at). */
    ghost predicate Valid()
      reads this
    {
      UniqueQuotes(quotes, sequence)
    }

    ghost function Value(): Tables
      reads this
    {
      Tables(updates, quotes, sequence)
    }

    constructor ()
      ensures Valid() && Value() == EMPTY_TABLES
    {
      updates, quotes, sequence := map[], map[], 0;
    }

    method CreateUpdateRequest(req: Request, key: string) returns (outcome: Outcome)
      requires Valid()
      modifies this`updates
      ensures Valid() && (Value(), outcome) == Insert(old(Value()), req, key)
    {
      if req.id in updates {
        return Refused(DuplicateId);
      }
      if key != "" && exists id | id in updates :: updates[id].key == Some(key) {
        return Refused(KeyExists);
      }
      updates := updates[req.id := UpdateRow(req.pair, req.status, if key == "" then None
          else Some(key), 0, req.createdAt,
                                             None, None, None, None, None, req.createdAt, req.createdAt)];
      return Queue.Done;
    }

    /** Runs only after an update that matched no row. */
    method DiagnoseTransitionFailure(id: Id, next: Status) returns (error: Error)
      requires Valid()
      ensures error == Diagnose(Value(), id, next)
    {
      if id !in updates {
        return NotFound;
      }
      if !updates[id].status.CanTransitionTo(next) {
        return InvalidTransition(updates[id].status, next);
      }
      return ChangedConcurrently;
    }

    method CompleteSuccessTx(id: Id, quoteId: nat, reused: bool, now: Time) returns (outcome: Outcome)
      requires Valid()
      modifies this`updates
      ensures Valid() && (Value(), outcome) == PointAt(old(Value()), id, quoteId, reused, now)
    {
      if id !in updates || !updates[id].status.InProgress? {
        var error := DiagnoseTransitionFailure(id, Succeeded);
        return Refused(error);
      }
      if quoteId !in quotes {
        return Refused(UnknownQuote);
      }
      updates := updates[id := updates[id].(status := Succeeded, quoteId := Some(quoteId), reused := Some(reused),
          updatedAt := now,
                                            errorCode := None, errorMessage := None)];
      return Queue.Done;
    }

    /** Insert, or on conflict the id of the row that is already there. */
    method UpsertQuote(pair: Pair, rate: Rate) returns (quoteId: nat)
      requires Valid()
      modifies this`quotes, this`sequence
      ensures Valid() && (Value(), quoteId) == Upsert(old(Value()), pair, rate)
    {
      sequence := sequence + 1;
      if exists q | q in quotes :: SameQuote(quotes[q], pair, rate) {
        ghost var p := Upsert(old(Value()), pair, rate).1;
        quoteId :| quoteId in quotes && SameQuote(quotes[quoteId], pair, rate);
        assert Holds(quotes, quoteId, pair, rate) && Holds(quotes, p, pair, rate);
        assert SameQuote(quotes[quoteId], quotes[p].pair, quotes[p].rate);
      } else {
        assert !exists q: nat :: Holds(quotes, q, pair, rate);
        quotes := quotes[sequence := StoredQuote(pair, rate)];
        quoteId := sequence;
      }
    }

    /** Post the quote, then close the row; roll both back if the row refuses. */
    method CompleteSuccess(id: Id, pair: Pair, rate: Rate, now: Time) returns (outcome: Outcome)
      requires Valid()
      modifies this
      ensures Valid() && (Value(), outcome) == TxSuccess(old(Value()), id, pair, rate, now)
    {
      var updatesAtBegin, quotesAtBegin := updates, quotes;
      var quoteId := UpsertQuote(pair, rate);
      outcome := CompleteSuccessTx(id, quoteId, false, now);
      if outcome.Refused? {
        updates, quotes := updatesAtBegin, quotesAtBegin;
      }
    }

    method CompleteSuccessReuse(id: Id, quoteId: nat, now: Time) returns (outcome: Outcome)
      requires Valid()
      modifies this`updates
      ensures Valid() && (Value(), outcome) == PointAt(old(Value()), id, quoteId, true, now)
    {
      outcome := CompleteSuccessTx(id, quoteId, true, now);
    }

    method CompleteFailure(id: Id, code: string, message: string, retryable: bool, nextAttemptAt: Time, now: Time)
      returns (outcome: Outcome)
      requires Valid()
      modifies this`updates
      ensures Valid() && (Value(), outcome) == TxFailure(old(Value()), id, code, message, retryable, nextAttemptAt, now)
    {
      var next := if retryable then Pending else Failed;
      if id !in updates || !updates[id].status.InProgress? {
        var error := DiagnoseTransitionFailure(id, next);
        return Refused(error);
      }
      var row := updates[id];
      updates := updates[id := row.(status := next, nextAttemptAt := if next == Pending then nextAttemptAt
          else row.nextAttemptAt,
                                    errorCode := Some(code), errorMessage := Some(message), updatedAt := now)];
      return Queue.Done;
    }
  }
}
