# Verified model of the asynchronous quote-update pipeline

A Dafny 4.11 model of the service's core: a leased work queue of update
requests, the workers of any number of replicas that drain it under a shared
budget of provider calls, and the append-only journal of quotes they fill.
`dafny verify dfyconfig.toml` checks the whole project.

| file | what it models |
|---|---|
| `Domain.dfy` | requests and their status machine, rates and their admission rule, error codes |
| `RateLimiter.dfy` | the sliding-window limiter: full history against pruned list, and the object with its buffer compacted in place |
| `Backoff.dfy` | exponential backoff on wrapping 64-bit arithmetic, jitter, Retry-After |
| `Queue.dfy` | queue and journal as one value, every repository operation on it, and what every run of operations keeps |
| `Claim.dfy` | the combined claim and the database's split of it |
| `MemoryRepository.dfy` | the in-memory repository as a class over maps of mutable records |
| `Columns.dfy` | the queue's operations column by column: what each writes, leaves and refuses |
| `Policy.dfy`, `Worker.dfy` | reuse or fetch, classification, retry budgets; the worker as a class over repository and limiter |
| `Dispatcher.dfy`, `DrainInterleaved.dfy` | passes and the drain loop, one task after another and in every interleaving of the pool |
| `Protocol.dfy` | replicas, passes, leases, reclaims and crashes as a transition system with a shared clock |
| `Flight.dfy` | one process's bounded pool, single-flight and shared limiter as interleaved steps |
| `SoloFlight.dfy`, `SharedBudget.dfy`, `SecondFetch.dfy`, `FlightRuns.dfy` | over those steps: a flight alone is the worker's fetch, calls against admissions and the cooldown, when a pair is fetched twice, and runs that show what is not given |
| `Postgres.dfy`, `PostgresRepository.dfy` | the database repository as table transformations and as a class; the simulation with the in-memory one |
| `RequestUpdate.dfy`, `Status.dfy` | the idempotency contract; the status response in every reachable state |

Methods of the classes are proved equal to functions on values (`Queue.Create`,
`Queue.Post`, `RateLimiting.PrunedStep`, `Policy.Settle`, `Postgres.TxSuccess`
and so on), and the results about single operations, runs and reachable states
are lemmas about those functions. The results chain: every run of replicas is a
run of the store (`Protocol.RunOfTheStore`), so what `Queue` proves of all
runs, and through `Postgres.DatabaseSimulatesMemory` the database, holds of it.

## How the source is read

- Time is `int` nanoseconds since Go's zero instant; a zero `time.Time` is 0.
  Update ids are integers with the order of their text. A price is a `real`.
  int64 wrap-around is explicit where the code relies on it (`Backoff`), and so
  is the conversion of the jittered delay back to int64: Go leaves a product
  that does not fit to the implementation (amd64 gives -2^63), so its outcome is
  a parameter.
- Clock readings, the provider's answer (quote, classified or unclassified
  error, panic), the jitter factor in [0.75, 1.25) and whether storage reads
  and writes go through are parameters, so every result holds for all of them.
- A flight takes the stages of `Policy.Fetch` one at a time: it looks into the
  journal, asks the limiter, calls the provider and hears back, each with its
  own clock reading and anything else in between. The limiter is one for all
  flights of a process.
- In `Protocol` one clock is shared by all replicas and storage takes a
  statement only while the pass's deadline has not passed. A crash, a panic
  and a failed or overdue write are one step, `Vanish`: nothing is recorded and
  the row waits for the reaper. An unclassified error that `fail` returns is a
  step of its own, `GiveBack`, because the age budget bounds it. A claim is
  lost when it vanishes, or when its row is reclaimed while it is still being
  worked on.
- A completion in `Queue.Op` may come at any time, from anyone and for any
  row; only `FromWorker` restricts what it carries, and `Policy` proves that
  workers obey it.

Where code and text disagree, the code is followed:

- A comment at `internal/domain/quotes/update_request.go` lines 19-21 has the
  reaper move rows from in_progress to pending. Both repositories keep them
  in_progress and refresh the lock (`internal/storage/postgres/repository.go`
  lines 147-152).
- `internal/domain/quotes/update_request.go` lines 51-57 say that Reused is
  filled in only by the read by id. The in-memory `GetByIdempotencyKey` returns
  the stored value; `Postgres.ByKeyAgrees` says where the two differ.
- The comment on `Allow` says retryAfter lasts until there is room again. That
  holds of minute refusals; `HintIsTight` and `HourHintCanFallShort` say when it
  fails for the others. The list is called ascending; clock readings are taken
  before the limiter's lock, so two of them may arrive in the other order, and
  `LateReadingIsExactIff` says when such a reading is answered correctly, and
  `LateAdmissionsSpread` what is left of the budgets.
- The comment on `resolve` reads as if single-flight closed the window for a
  second fetch. It closes the one it describes, but the quote is inserted after
  the flight has landed; `SecondFetchIff` and `PastReuseAgainIff` are the exact
  conditions, `SecondCallInTheGap` is the run.
- A deferral is meant to lie ahead. With waits beyond 4/5 of 2^63 (a Retry-After
  date in the year 9999 is enough) it can lie 292 years back
  (`FarRetryAfterIsPast`); `DeferralIsLaterIff` is the exact condition, and the
  drain and the work bound say what they need of it.
- A retry may be due before the upstream's Retry-After is over
  (`NeverBeforeRetryAfterIff`); what holds is the limiter's cooldown, from when
  it is recorded (`NoCallBeforeRetryAfter`).
- Both repositories are described as claiming alike. `DatabaseClaimMatchesIff`
  says on which tables they do: with at most `limit` stuck rows exactly where no
  tie in next_attempt_at is cut; with more, the longest-locked rows must also
  include the ones that come first (`StuckOverflowDiverges` has tables on which
  they never do).
- The two journals number quotes differently: the database's sequence advances
  on conflicts and rollbacks, so the simulation is up to an order-preserving
  renaming of quote ids.

Nothing was executed: every statement is a proof about the model.

## Model

| member | source | states |
|---|---|---|
| `RateLimiting.PruningIsExact` | internal/usecase/quotes/ratelimiter.go:53-72 | over every run whose Allow times never go back, with any cooldowns interleaved, the list pruned in place gives exactly the answers, retryAfter included, that the complete unpruned call history would give |
| `RateLimiting.PruningNeedsMonotoneTimes` | internal/usecase/quotes/ratelimiter.go:17 | the "ascending" assumption is needed by the nanosecond: from any start, two calls an hour apart after which a clock reading 1ns older is admitted by the pruned list and refused by the history |
| `RateLimiting.LateReadingIsExactIff` | internal/usecase/quotes/ratelimiter.go:50-79 | after any monotone run, a reading at any instant, late or not, is answered by the pruned list as by the history, under every limits, if and only if a cooldown is on then or the list still holds all the history's calls of that reading's hour |
| `RateLimiting.AdmissionExact` | internal/usecase/quotes/ratelimiter.go:42-83 | a call is admitted if and only if no cooldown is on and the history entries perHour and perMinute places from the end have left their windows (a reading of the rule that does no counting) |
| `RateLimiting.BudgetsHold` | internal/usecase/quotes/ratelimiter.go:42-83 | in every monotone run the admitted history h satisfies h[i+perMinute] >= h[i] + 1 min and h[i+perHour] >= h[i] + 1 h, for positive limits |
| `RateLimiting.AdmissionsKeepBudgets` | internal/usecase/quotes/ratelimiter.go:42-83 | the calls the service lets through from its pruned list, over any monotone run, keep both budgets |
| `RateLimiting.LateAdmissionsSpread` | internal/usecase/quotes/ratelimiter.go:42-83 | for readings in any order that come at most d late: any perHour + 1 admissions in a row span at least an hour less d, and any perMinute + 1 a whole minute if d is at most 59 minutes |
| `RateLimiting.LateReadingBreaksBudget` | internal/usecase/quotes/ratelimiter.go:42-83 | the loss of d is real: from any start, a run with one reading 1ns late that admits three calls of an hour budget of two within one hour |
| `RateLimiting.NeverOverfull` | internal/usecase/quotes/ratelimiter.go:74-79 | in a history that keeps its budgets a full window holds exactly its limit of calls and begins at the entry that many places from the end |
| `RateLimiting.HintIs` | internal/usecase/quotes/ratelimiter.go:46-79 | retryAfter is positive and points at the end of the cooldown, or at the instant the oldest call of the full window leaves it |
| `RateLimiting.HintIsSound` | internal/usecase/quotes/ratelimiter.go:39-48 | on the full history: after a refusal at t with hint r every call before t + r is refused, whatever calls and cooldowns follow |
| `RateLimiting.ServiceHintIsSound` | internal/usecase/quotes/ratelimiter.go:39-82 | the same promise made by the pruned list after any monotone run from an empty limiter |
| `RateLimiting.HintIsTight` | internal/usecase/quotes/ratelimiter.go:39-79 | with no new cooldown, the call at t + r is admitted always after a minute refusal, after an hour refusal iff the minute window has room then, after a cooldown refusal iff both windows have |
| `RateLimiting.HourHintCanFallShort` | internal/usecase/quotes/ratelimiter.go:39-41 | a concrete hour refusal whose retryAfter is too short: the minute window is still full then |
| `RateLimiting.CooldownHolds` | internal/usecase/quotes/ratelimiter.go:25-48 | once blocked until u, no later event in any order lets a call through before u |
| `RateLimiterObject.RateLimiter.constructor` | internal/usecase/quotes/ratelimiter.go:21-23 | a fresh limiter has an empty history, no cooldown and the given limits |
| `RateLimiterObject.RateLimiter.CoolDown` | internal/usecase/quotes/ratelimiter.go:31-37 | the object's new value is the cooldown step: blockedUntil only rises |
| `RateLimiterObject.RateLimiter.Allow` | internal/usecase/quotes/ratelimiter.go:42-83 | the answer is the verdict on the list as it was before pruning, and the new list is the pruned step of the specification |
| `RateLimiterObject.RateLimiter.Compact` | internal/usecase/quotes/ratelimiter.go:50-72 | one pass in place leaves exactly the calls of the last hour in order, and finds how many are in the last minute and the oldest of them |
| `RateLimiterObject.RateLimiter.Append` | internal/usecase/quotes/ratelimiter.go:81 | the buffer's contents are the old contents and the new call, also when the buffer has to grow |
| `Backoff.ExactIff` | internal/usecase/quotes/worker.go:208-213 | the guarded int64 product equals min(base * 2^max(attempts-1,0), maxBackoff) if and only if the product does not overflow back into the range strictly between 0 and the cap |
| `Backoff.ExactForAllIff` | internal/usecase/quotes/worker.go:208-213 | a base and a cap are exact for every attempts value if and only if they are for the first 64: a check one can make before any call |
| `Backoff.NeverWrapsBack` | internal/usecase/quotes/worker.go:208-213 | with base = odd * 2^e and odd * maxBackoff < 2^63 the guarded product is exact for every attempts value, shifts of 63, 64 and beyond included |
| `Backoff.DelayIsMonotone` | internal/usecase/quotes/worker.go:204-213 | under the same condition the delay before jitter never shrinks with more attempts and lies in (0, maxBackoff] |
| `Backoff.DelayDoubles` | internal/usecase/quotes/worker.go:204-213 | the exact delay starts with the base and doubles with each attempt, both capped at maxBackoff |
| `Backoff.DefaultSchedule` | internal/config/config.go:149-151 | the shipped schedule before jitter: 5s, 10s, 20s, ..., 160s, and 5min from the seventh attempt on |
| `Backoff.DefaultsAreExact` | internal/config/config.go:149-151 | the shipped 5s and 5min are exact for every attempts value |
| `Backoff.LargeOddPartWrapsBack` | internal/usecase/quotes/worker.go:210-213 | the guard does not catch every overflow: a concrete base for which the delay becomes 4ns instead of the cap |
| `Backoff.NextAttemptBoundsIff` | internal/usecase/quotes/worker.go:214-218 | the next attempt lies between 3/4 and 5/4 of the longer of the backoff delay and Retry-After, for every jitter factor in [0.75, 1.25) and every outcome of an out-of-range conversion to int64, if and only if that wait is at most 4/5 of 2^63 |
| `Backoff.DeferralIsLaterIff` | internal/usecase/quotes/worker.go:208-219 | the next attempt is later than now, for every factor and platform, if and only if the wait before jitter is at least 2ns and at most 4/5 of 2^63 |
| `Backoff.DeferralsAreLaterIff` | internal/usecase/quotes/worker.go:208-219 | every deferral with a Retry-After of at most 4/5 of 2^63, whatever the attempts, factor and platform, is later than now if and only if base and cap are at least 2ns and the cap is within that bound |
| `Backoff.FarRetryAfterIsPast` | internal/usecase/quotes/worker.go:217-218 | the bound is needed under the shipped defaults: a Retry-After of 2^63 - 1ns puts the next attempt 292 years back where the conversion of an out-of-range product gives -2^63 |
| `Backoff.MayReturnBeforeRetryAfter` | internal/usecase/quotes/worker.go:214-218 | a row may come back before the upstream's Retry-After is over: a concrete deferral due at 0.75 of it |
| `Backoff.NeverBeforeRetryAfterIff` | internal/usecase/quotes/worker.go:208-218 | for every factor and platform the row does not come back before Retry-After r is over if and only if r is at most 3/4 of the backoff delay and that delay at most 4/5 of 2^63 |
| `Backoff.NeverBeforeRetryAfterIfExact` | internal/usecase/quotes/worker.go:208-218 | the same condition on configuration and attempts alone, with min(base * 2^(attempts-1), maxBackoff) for the delay, where no overflow of the shift wraps back |
| `Queue.TerminalIsAbsorbing` | internal/domain/quotes/update_request.go:22-33 | over every run of operations, repeated, late and misdirected completions included, rows keep id, pair, key and createdAt, and a terminal row is never changed again |
| `Queue.ClosedOnce` | internal/domain/quotes/update_request.go:22-25 | over every run a row is moved into a terminal status exactly once if it ends up closed, and never otherwise |
| `Queue.StepKeeps` | internal/storage/memory/repository.go:166-244 | every client and worker operation keeps the store's invariant: a row has a quote iff it succeeded, that quote exists and has the row's pair, succeeded rows carry no error, no two journal rows agree in pair, provider and quotedAt, the index is exactly the rows' keys; and the journal only grows |
| `Queue.RunKeeps` | internal/storage/memory/repository.go:166-244 | the invariant and the growing journal over every run, so that no reuse ever dangles |
| `Queue.PostIs` | internal/storage/memory/repository.go:193-202 | find-or-create is determined: the one existing row of that quote, or the next id; uniqueness is kept and nothing else changes |
| `Queue.PostStores` | internal/storage/memory/repository.go:191-202 | what is posted is in the journal under its own pair, provider and quotedAt; a row is added, holding exactly this rate, if and only if no row agreed in all three; every other row stays |
| `Queue.SuccessStores` | internal/storage/memory/repository.go:166-202 | after a granted success the row points at a quote of the given pair, provider and quotedAt, the given rate itself if none agreed in all three |
| `Queue.ClosedBy` | internal/storage/memory/repository.go:166-244 | over every run a closed row tells for ever how it was closed: succeeded and not reused by a posted quote, succeeded, reused and pointing at its quote by a reuse, failed with its code and message by a permanent failure, each at that operation's instant, and by nothing else |
| `Queue.PostedQuoteShows` | internal/storage/memory/repository.go:166-202 | over every run a row closed by a posted quote points at a quote of that pair, provider and quotedAt |
| `Queue.OneRateOneRow` | internal/storage/memory/repository.go:166-202 | two completions with one fetched rate, with any run between them, point at one journal row, and the second adds none |
| `Queue.LatestExists` | internal/storage/memory/repository.go:263-286 | a pair with any quote has a latest one by (quotedAt, id) |
| `Queue.LatestIs` | internal/storage/memory/repository.go:261-281 | a row is the latest if and only if every other of its pair was quoted before it, or at the same instant with a smaller id: the choice is unique |
| `Queue.LatestNeverGoesBack` | internal/storage/memory/repository.go:263-286 | over any run a pair's latest (quotedAt, id) never decreases, and the earlier latest row stays as it was |
| `Queue.KeyIsForever` | internal/storage/memory/repository.go:53-83 | a key once taken leads to the same id, pair and creation time after every run, so the lookup that follows "key exists" never fails, and it reads the row as it then is |
| `Claims.SplitClaimSize` | internal/storage/postgres/repository.go:178-200 | the top-k of the two top-k selections claims exactly min(limit, due + stuck) rows |
| `Claims.NoDueRowPassedOver` | internal/storage/postgres/repository.go:178-200 | no due row is left unclaimed for a claimed one that comes after it, for any ORDER BY |
| `Claims.SplitIffCombined` | internal/storage/postgres/repository.go:163-200 | with at most limit stuck rows the selections the split can make are exactly the top-k selections of the combined "due or stuck" set, for any ORDER BY |
| `Claims.OneSelectionIff` | internal/storage/postgres/repository.go:181-198 | ordered by time alone, SQL can only make the selection with ties broken by id if and only if no row left out has the time of one taken |
| `Claims.SplitEqualsCombinedIff` | internal/storage/postgres/repository.go:163-200 | in the order the query runs, next_attempt_at alone, and for any number of stuck rows: every selection the split may make is the combined claim's set if and only if, whichever limit longest-locked stuck rows SQL yields, they include that set's stuck rows and no tie with them or a due row is cut |
| `Claims.SureIffSharp` | internal/storage/postgres/repository.go:163-200 | with at most limit stuck rows that condition is just that no candidate left out has the next_attempt_at of one taken |
| `Claims.StuckOverflowDiverges` | internal/storage/postgres/repository.go:185-200 | and with more it can fail for any numbers of rows: for any due and more than limit stuck rows there is a table on which, however ties are broken, the database never makes the in-memory repository's claim |
| `Claims.TopKUnique` | internal/storage/memory/repository.go:105-113 | an order that separates all rows leaves one possible selection |
| `Claims.DatabaseClaimIsFair` | internal/storage/postgres/repository.go:176-200 | on any table and with SQL's free choice among ties: min(limit, candidates) rows, all candidates, and no due row with a strictly smaller next_attempt_at than a claimed one is left |
| `Claims.DatabaseClaimMatchesIff` | internal/storage/postgres/repository.go:176-200 | on every table, everything the database may claim is what the in-memory repository claims if and only if the condition of SplitEqualsCombinedIff holds of its rows; with at most limit stuck rows, if and only if no tie in next_attempt_at is cut |
| `Claims.PrefixIsCombinedClaim` | internal/storage/memory/repository.go:92-113 | truncating the sorted candidates to the limit is the combined top-k claim |
| `Columns.BatchIs` | internal/storage/memory/repository.go:85-144 | a batch is at most limit of the rows pending and due by now or in progress and locked before visibleSince, in the order of (next attempt, id), with none left out that comes before one taken or while there is room; no other row changes |
| `MemoryRepository.Record.constructor` | internal/storage/memory/repository.go:63-67 | a new record: due at its creation time, never locked, no quote |
| `MemoryRepository.Repository.constructor` | internal/storage/memory/repository.go:45-51 | the empty store |
| `MemoryRepository.Repository.CreateUpdateRequest` | internal/storage/memory/repository.go:53-72 | whole new store and error of the create operation; nothing changes when the key is taken |
| `MemoryRepository.Repository.GetByIdempotencyKey` | internal/storage/memory/repository.go:74-83 | the request the key leads to, stored Reused included, or not found |
| `MemoryRepository.Repository.ClaimBatch` | internal/storage/memory/repository.go:88-144 | the result is the combined top-limit claim in (next_attempt_at, id) order; exactly those rows are locked, only pending ones spend an attempt, every other row is unchanged |
| `MemoryRepository.Repository.CollectCandidates` | internal/storage/memory/repository.go:92-110 | whatever order the map yields, the result is exactly the eligible rows, sorted |
| `MemoryRepository.Repository.InsertInOrder` | internal/storage/memory/repository.go:105-110 | an inserted id keeps the list sorted and adds exactly itself |
| `MemoryRepository.Repository.ComputeClaims` | internal/storage/memory/repository.go:115-137 | every transition is computed before any record is written |
| `MemoryRepository.Repository.WriteClaims` | internal/storage/memory/repository.go:139-142 | writing the computed claims through the shared records changes exactly the claimed rows |
| `MemoryRepository.Repository.WriteClaim` | internal/storage/memory/repository.go:139-142 | writing one record changes one row |
| `MemoryRepository.Repository.OneRowChanged` | internal/storage/memory/repository.go:38 | records are not aliased: after a write through one of them every other row reads as before |
| `MemoryRepository.Repository.TransitionRecord` | internal/storage/memory/repository.go:152-164 | not found, the status machine's refusal, or the moved request |
| `MemoryRepository.Repository.CompleteSuccess` | internal/storage/memory/repository.go:166-189 | whole new store: on a refused move not even the journal changes, otherwise quote posted or found, row pointed at it, error cleared |
| `MemoryRepository.Repository.WriteRow` | internal/storage/memory/repository.go:186-187 | the two field writes change that one row and keep the representation invariant |
| `MemoryRepository.Repository.FindOrCreateQuote` | internal/storage/memory/repository.go:193-202 | the scan in any map order is find-or-create on the journal; the row it names has the given pair, provider and quotedAt |
| `MemoryRepository.Repository.FindQuote` | internal/storage/memory/repository.go:194-198 | finds a row that agrees in pair, provider and quotedAt if and only if there is one |
| `MemoryRepository.Repository.CompleteSuccessReuse` | internal/storage/memory/repository.go:207-221 | whole new store of a reuse completion, journal untouched |
| `MemoryRepository.Repository.CompleteFailure` | internal/storage/memory/repository.go:223-244 | whole new store: pending with a new next attempt when retryable, failed with the old one otherwise |
| `MemoryRepository.Repository.GetUpdateByID` | internal/storage/memory/repository.go:246-259 | the row and, if it has a quote id, its rate (the zero rate when the id is not in the journal) |
| `MemoryRepository.Repository.GetLatestQuote` | internal/storage/memory/repository.go:263-286 | the scan returns the lexicographic maximum by (quotedAt, id) for every iteration order, and not found iff the pair has no quote |
| `Policy.DecisionIs` | internal/usecase/quotes/worker.go:162-187 | with both comparisons written out: an unclassified error is returned while attempts < maxAttempts and age < maxLifetime, and becomes a permanent internal_error after; a retryable one is deferred under its own code and text while they last, and becomes attempts_exhausted after; a permanent one fails the row at once |
| `Policy.DeferralBoundsIff` | internal/usecase/quotes/worker.go:182-190 | a retryable error under a budget is deferred, for every factor and platform, to between 3/4 and 5/4 of the longer of min(base * 2^(attempts-1), maxBackoff) and its Retry-After, if and only if that is at most 4/5 of 2^63 |
| `Policy.FetchCallsIff` | internal/usecase/quotes/worker.go:116-137 | the provider is called if and only if the read did not fail, the pair's latest quote is missing or stale at the reading, no cooldown is on and both windows have room; the call is then in the limiter's list; a read fault stays unclassified, a refusal is a retryable rate_limited error with the limiter's hint |
| `Policy.AnswerBecomes` | internal/usecase/quotes/worker.go:137-159 | a provider's failure is passed on as it came, a quote becomes a rate with every field as answered if it is positive, dated, and at most five minutes ahead, and a permanent malformed_response if not; only a positive Retry-After touches the limiter |
| `Policy.SettlesAs` | internal/usecase/quotes/worker.go:66-83 | a panic, a failed write and a returned error record nothing; all else is one operation on the request's own row at the instant read after the flight |
| `SoloFlight.FlownAloneIsFetch` | internal/usecase/quotes/worker.go:101-160 | from any reachable state, a flight taken through look, limiter, call and answer with nothing in between, stopped where it lands, lands with the resolution of the worker's fetch and leaves the limiter as it does, and is among the provider's calls if and only if the fetch called |
| `Policy.FetchIsSound` | internal/usecase/quotes/worker.go:116-160 | helper, read off the stages: whatever each stage of a flight ends with may be recorded for rows of its pair: this is what Protocol and Flights build on |
| `Policy.FetchIsTame` | internal/usecase/quotes/worker.go:130-147 | the limiter's own refusal hints stay within 4/5 of 2^63, and so does its cooldown, as long as the book is not ahead of the clock by more than that and no provider's Retry-After is longer |
| `Policy.CompletionIsFromWorker` | internal/usecase/quotes/worker.go:66-88 | whatever a worker records posts an admitted rate under the row's own pair or points at an existing quote of that pair |
| `Policy.RuleHolds` | internal/domain/quotes/currency_rate.go:31-57 | over every run whose completions follow the adapter's freshness rule every row of the journal does |
| `Policy.ReuseIsFresh` | internal/usecase/quotes/worker.go:120-124 | after any run, a reused price was fetched less than 5 min plus its own TTL before: one minute if live, a day if daily, the configured TTL if neither |
| `Policy.StaleAfterIs` | internal/provider/exchangeratedev/adapter.go:49-58 | 60s for a live quote, 24h for a daily one, the configured TTL for any other |
| `WorkerObject.Worker.Process` | internal/usecase/quotes/worker.go:66-88 | for every outside world, failing reads and writes included: the limiter's and the repository's whole new values and the report are those of a flight flown alone and then recorded; panics and failed writes record nothing |
| `WorkerObject.Worker.Succeed` | internal/usecase/quotes/worker.go:75-84 | reuse only points the row at the quote; a fetched rate is posted |
| `WorkerObject.Worker.Fetch` | internal/usecase/quotes/worker.go:116-160 | a failed read ends it, reuse iff the latest quote is not stale at the first clock reading, otherwise the fresh fetch; limiter's new value included |
| `WorkerObject.Worker.FetchFresh` | internal/usecase/quotes/worker.go:130-159 | limiter, then provider, then cooldown or admission rule, in that order |
| `WorkerObject.Worker.Fail` | internal/usecase/quotes/worker.go:171-202 | classification, the two budgets, backoff and the write give the store the policy's decision describes |
| `WorkerObject.Worker.Backoff` | internal/usecase/quotes/worker.go:208-219 | the reassigned delay ends as the guarded product, capped, raised to Retry-After and jittered |
| `Drain.BacklogIs` | internal/usecase/quotes/dispatcher.go:41-44 | waiting are the rows pending and due, and those in progress that were locked more than the visibility timeout before |
| `Drain.ClaimShrinksBacklog` | internal/storage/memory/repository.go:88-144 | at a frozen clock a claim takes exactly its rows off the backlog |
| `Drain.SettleKeepsBacklog` | internal/usecase/quotes/worker.go:66-88 | success, deferral, failure, returned error, panic or lost write: at the same instant the row comes back to the backlog if and only if it was deferred to no later than now, and no other row does |
| `Drain.NeverDueAtOnce` | internal/usecase/quotes/worker.go:208-219 | with base and cap between 2ns and 4/5 of 2^63 and an error within that bound no recorded decision is due at the instant it is made |
| `Drain.NeverDueAtOnceIff` | internal/usecase/quotes/worker.go:182-219 | a retryable error under a budget never puts its row back at once, for every factor and platform, if and only if its wait is at least 2ns and at most 4/5 of 2^63 |
| `Drain.FarRetryAfterRejoins` | internal/usecase/quotes/worker.go:217-218 | under the shipped backoff a first attempt with a Retry-After of 2^63 - 1ns can be back in the backlog the instant it is deferred: the drain's exact count needs the bound |
| `Drain.PassMakesProgress` | internal/usecase/quotes/dispatcher.go:111-121 | one more full pass takes batchSize further rows; the first pass that is not full is number n / batchSize + 1 and leaves nothing |
| `Drain.InOneBatchOnly` | internal/usecase/quotes/dispatcher.go:40-76 | no row is in two batches of a drain |
| `DispatcherObject.Dispatcher.ClaimAndDispatch` | internal/usecase/quotes/dispatcher.go:40-76 | exactly min(batchSize, waiting) of the waiting rows were claimed, each once: locked now, one attempt more if it was pending and none if reclaimed; no other row changed, none of them is waiting, and full iff batchSize |
| `DispatcherObject.Dispatcher.ClaimBatch` | internal/usecase/quotes/dispatcher.go:41-47 | the batch is waiting rows, pairwise distinct, each locked at this instant |
| `DispatcherObject.Dispatcher.ProcessAll` | internal/usecase/quotes/dispatcher.go:58-74 | processing the batch, whatever each row's outcome, neither adds to nor takes from the backlog, keeps each claim's attempts and lock, and leaves all other rows as they were |
| `DispatcherObject.Dispatcher.ProcessOne` | internal/usecase/quotes/dispatcher.go:59-73 | one row's outcome is contained: the backlog and the other rows' claims stay |
| `DispatcherObject.Dispatcher.DrainOnTrigger` | internal/usecase/quotes/dispatcher.go:111-127 | one trigger at a frozen clock, with waits between 2ns and 4/5 of 2^63, runs exactly floor(n / batchSize) + 1 passes and leaves nothing waiting; each of the n waiting rows is in the batch of exactly one pass and was claimed once (lock and attempts say so), and no other row changed |
| `InterleavedDrain.PassKeepsBacklog` | internal/usecase/quotes/dispatcher.go:53-74 | in every interleaving of a pass's pooled tasks and the flights they share, wherever it stops, the backlog is what it was after the claim, and only the batch's rows change, keeping their claim |
| `InterleavedDrain.DrainIsExact` | internal/usecase/quotes/dispatcher.go:103-128 | under the same conditions, the exact count of passes, each waiting row claimed once and no other row touched, in every interleaving of every pass |
| `Protocol.BatchIsRowByRow` | internal/storage/postgres/repository.go:176-207 | claiming a batch is claiming its rows one by one in any order |
| `Protocol.StepIsStoreOp` | internal/usecase/quotes/dispatcher.go:40-76 | every step of any replica acts on the store as a client or worker operation, or not at all |
| `Protocol.AlwaysExclusive` | internal/config/config.go:315-325 | in every reachable state of any number of replicas a lease whose deadline has not passed is its row's latest claim, and the latest claim still sees its row unchanged |
| `Protocol.LeaseKeptByClaim` | internal/storage/postgres/repository.go:176-207 | a claim or reclaim keeps that: an older lease on the row has expired by then |
| `Protocol.LeaseKeptByWrite` | internal/storage/postgres/repository.go:106-121 | a completion keeps that for every other lease |
| `Protocol.WritesAreTheHolders` | internal/usecase/quotes/dispatcher.go:41-44 | every completion storage accepts comes from the row's latest claimant, finds the row exactly as claimed (attempts snapshot included) and takes effect |
| `Protocol.LeaseSafeIff` | internal/config/config.go:315-325 | over all runs, no write by anyone but the latest claimant takes effect if and only if visibility timeout >= pass timeout |
| `Protocol.ReclaimRun` | internal/config/config.go:315-319 | a run in which a row is reclaimed while its first claimant's pass is still alive |
| `Protocol.ShortVisibilityBreaksLeases` | internal/config/config.go:320-325 | for every visibility timeout below the pass timeout, a run in which a claimant whose row was reclaimed writes and fails the row while its latest claimant is still working on it |
| `Protocol.AlwaysInBudget` | internal/usecase/quotes/worker.go:162-192 | in every reachable state pending implies attempts < maxAttempts, otherwise 1 <= attempts <= maxAttempts, every failed row has a worker's code, each row's claims balance against its attempts, returned errors and losses, and its lock has moved on by more than the visibility timeout for each returned error found, but for setbacks |
| `Protocol.WriteDecides` | internal/usecase/quotes/worker.go:66-83 | every write storage accepts in any run leaves its row succeeded if and only if the flight brought a quote, pending if and only if the error was retryable with attempts < maxAttempts and age < maxLifetime, and failed otherwise, at the instant read after the flight |
| `Protocol.ExhaustedIsSpent` | internal/usecase/quotes/worker.go:182-187 | over every run a row that failed as attempts_exhausted had spent exactly maxAttempts, or was given up at an age of at least maxLifetime |
| `Protocol.LedgersCountClaims` | internal/storage/memory/repository.go:115-137 | the proof's ledgers count every claim of a run exactly once, fresh or reclaimed |
| `Protocol.UnrecordedAreLosses` | internal/usecase/quotes/worker.go:61-65 | a reclaim that finds nothing recorded is preceded by a loss of its own: a crash, panic or failed write, or a claim overtaken while still worked on |
| `Protocol.WorkIsBounded` | internal/usecase/quotes/worker.go:162-192 | in every run a row is claimed at most maxAttempts + ceil(maxLifetime / (visibility + 1ns)) times, plus its lost claims, plus its setbacks, of which there are fewer than maxAttempts: claims read before the row's last lock, which only an overflowing deferral makes possible |
| `Protocol.AlwaysTame` | internal/usecase/quotes/worker.go:208-219 | in every run in which no wait is longer than 4/5 of 2^63, no row is due before it was created or before its last lock, and there are no setbacks |
| `Protocol.TameWorkIsBounded` | internal/usecase/quotes/worker.go:162-192 | in such a run a row is claimed at most maxAttempts + ceil(maxLifetime / (visibility + 1ns)) + its lost claims times |
| `Protocol.RunOfTheStore` | internal/usecase/quotes/dispatcher.go:103-128 | every multi-replica run is a run of client and worker operations, so all all-run results on the store hold of it |
| `Flights.AlwaysGood` | internal/usecase/quotes/worker.go:90-109 | in every interleaving of one process's tasks with all other workers: at most one flight in the air per pair, led by a task that holds a slot, never more than poolSize tasks running, every finished task's row as it recorded it |
| `Flights.OneFlightOneRow` | internal/usecase/quotes/worker.go:66-88 | the rows of all callers recorded from one flight have succeeded and point at the same journal row, in every later state |
| `Flights.OnlyTheFirstPosts` | internal/storage/memory/repository.go:193-202 | after one caller of a flight has been recorded no other adds a journal row |
| `Flights.NeverStuck` | internal/usecase/quotes/dispatcher.go:53-74 | with poolSize >= 1, while any task is unfinished some task can take its next step: a waiter waits only for a leader that holds a slot |
| `Flights.PassEnds` | internal/usecase/quotes/dispatcher.go:53-74 | a pass over n rows takes at most 6n steps of its own in any interleaving |
| `SharedBudget.CallsMatchAdmissions` | internal/usecase/quotes/worker.go:130-137 | in every interleaving of flights of any pairs, provider calls and admissions match one to one, but for flights about to call, and the admissions are those the one shared limiter makes over everything it saw |
| `SharedBudget.CallsKeepBudgets` | internal/usecase/quotes/worker.go:130-137 | in every interleaving of the flights of all requests a process works on: if their clock readings reach the limiter at most d late, any perHour + 1 admitted provider calls span at least an hour less d and any perMinute + 1 a whole minute (d at most 59 minutes); if in order, both budgets are kept in full |
| `SharedBudget.NoCallBeforeRetryAfter` | internal/usecase/quotes/worker.go:137-147 | once an error heard at t with Retry-After r is recorded, no provider call of any pair, in any interleaving and under any clock readings, has an admission before t + r unless it was admitted before the record; if those were before t, none lies in [t, t + r) |
| `FlightRuns.AdmittedWhileAnswering` | internal/usecase/quotes/worker.go:144-146 | that exception is real: a run in which another pair's call is admitted at t + 1ns, between hearing the answer and recording the cooldown |
| `SecondFetch.PastReuseAgainIff` | internal/usecase/quotes/worker.go:101-124 | in every interleaving with everyone else, a second flight of a pair goes past reuse if and only if nobody has put the pair's latest, still fresh quote into the journal since the first one looked |
| `SecondFetch.SecondFetchIff` | internal/usecase/quotes/worker.go:66-124 | while a landed flight's rate is fresh and only its callers have posted for the pair, the next flight of the pair goes past reuse if and only if no caller has put the rate into the journal yet, or a later-quoted row that was already stale is the latest |
| `FlightRuns.SecondCallInTheGap` | internal/usecase/quotes/worker.go:66-81 | single-flight does not give one provider call per freshness window: for any admitted quote, a run in which the provider is called again for the pair while the first rate is fresh |
| `Postgres.RefusalChangesNothing` | internal/storage/postgres/repository.go:227-249 | a refused operation leaves both tables as they were: the quote inserted before the refused update is rolled back |
| `Postgres.ConcurrentChangeIff` | internal/storage/postgres/repository.go:76-99 | "changed concurrently" is answered if and only if the row became in progress between the UPDATE and the SELECT; without a write in between it cannot be |
| `Postgres.UpsertAgrees` | internal/storage/postgres/repository.go:251-283 | INSERT ... ON CONFLICT DO NOTHING plus the fallback SELECT and the in-memory find-or-create keep related journals related and return corresponding ids |
| `Postgres.InsertAgrees` | internal/storage/postgres/repository.go:123-136 | the unique index refuses exactly when the in-memory index does, with the same error |
| `Postgres.ClaimAgrees` | internal/storage/postgres/repository.go:201-206 | the claim's UPDATE and the in-memory claim of the same rows agree on every column |
| `Postgres.GuardAgrees` | internal/storage/postgres/repository.go:76-99 | the guarded UPDATE matches if and only if the status machine allows the move, and its diagnosis is the same error |
| `Postgres.PointAtAgrees` | internal/storage/postgres/repository.go:106-121 | pointing a matched row at a quote agrees with the in-memory completion |
| `Postgres.TxSuccessStores` | internal/storage/postgres/repository.go:227-283 | after a committed success the row points at a quote of the given pair, provider and quotedAt, and a row holding exactly this rate is added if and only if none agreed in all three |
| `Postgres.SuccessAgrees` | internal/storage/postgres/repository.go:227-249 | the success transaction and the in-memory success agree on rows, journal and outcome |
| `Postgres.FailureAgrees` | internal/storage/postgres/repository.go:288-321 | the failure statement and the in-memory failure agree on rows and outcome |
| `Postgres.StepAgrees` | internal/storage/postgres/repository.go:84-321 | each operation of clients and workers agrees, error class included |
| `Postgres.DatabaseSimulatesMemory` | internal/storage/postgres/repository.go:84-321 | forward simulation over every run: the same outcomes in the same order, and related rows and journals at the end |
| `Postgres.EmptyStoresMatch` | internal/storage/memory/repository.go:45-51 | the empty stores start the simulation |
| `Postgres.LatestAgrees` | internal/storage/postgres/repository.go:387-401 | both repositories name the same latest quote |
| `Postgres.ByKeyAgrees` | internal/storage/postgres/repository.go:138-145 | lookups by key agree except for reused, which only the in-memory repository reports |
| `Postgres.ByIdAgrees` | internal/storage/postgres/repository.go:323-385 | reads by id agree in full, reused and rate included |
| `Postgres.ClaimsAgreeIff` | internal/storage/postgres/repository.go:176-206 | on related stores the tables' claim, ties left to SQL, can only be the in-memory one if and only if the condition of SplitEqualsCombinedIff holds |
| `Postgres.BatchesSimulate` | internal/storage/postgres/repository.go:84-321 | forward simulation with ClaimBatch(limit, ..) itself as an operation: over every run in which that condition holds at each claim, the database has no choice but the in-memory rows, and outcomes, rows and journal agree |
| `PostgresRepository.Repository.UpsertQuote` | internal/storage/postgres/repository.go:260-283 | the id of the inserted or winning row; the sequence advances either way |
| `PostgresRepository.Repository.CompleteSuccess` | internal/storage/postgres/repository.go:227-249 | the transaction: both writes, or neither |
| `PostgresRepository.Repository.CompleteSuccessReuse` | internal/storage/postgres/repository.go:430-445 | only the guarded update |
| `Idempotency.RequestUpdate` | internal/usecase/quotes/request_update.go:22-50 | parse, create, look up, decide: a pair that does not parse touches nothing; otherwise the repository's whole new value and the answer, when nothing runs in between |
| `Idempotency.SameKeySameAnswer` | internal/usecase/quotes/request_update.go:18-46 | two requests with one key and any run between them and between the second's create and lookup: the second never creates, its lookup never fails, it replays the owner's stored request exactly as it is at the lookup, created when the owner was, or reports the conflict if and only if its pair differs |
| `Idempotency.CreatedOnce` | internal/usecase/quotes/request_update.go:30-46 | over any run a non-empty key that was free and is taken at the end was created exactly once; one that was taken, never |
| `StatusResponse.WorkerCodesAreSafe` | internal/api/http/dto.go:113-133 | every code a worker writes has its own safe message, so the generic one is never used |
| `StatusResponse.MessagesAreFixed` | internal/api/http/dto.go:110-133 | whatever code is stored, the message is one of the table's or the generic one, never stored text |
| `StatusResponse.ResponsesAreWellFormed` | internal/api/http/dto.go:90-108 | in every reachable state of every multi-replica run: a price iff succeeded, all seven fields those of the journal row it points at, of the row's pair and positive; cached iff succeeded, telling whether the row reused; an error iff failed, with the row's code, attempts (at least 1) and a message that is not the generic one |
| `StatusResponse.CachedTellsReuse` | internal/api/http/dto.go:97-108 | over every multi-replica run, cached is false if the row was closed by a posted quote, whose provider and instant show, true if by a reuse, whose price shows, and an error with its code if by a permanent failure |

## Left out

- HTTP routing, middleware, JSON, decimal formatting, logging, migrations, connection pooling, shutdown: plumbing with one-branch claims.
- The exchangerate.dev client, its error table and the fake provider: a provider is any answer with an optional Retry-After; only the adapter's `StaleAfter` is modelled.
- Configuration parsing, except the positivity of limits and visibility timeout >= pass timeout, which are hypotheses.
- Pair parsing and UUID generation: pairs are values with equality and parsing is any function to a pair or an error; new ids are assumed fresh.
- Float rounding of jitter (the product is an exact real; near 2^63 a double may round it up), saturation of `time.Time.Sub`, the database's microsecond timestamps, and the exact wording of the admission rule's three messages.
- Go's scheduler and mutexes: repository and limiter methods are atomic, as their locks make them; interleaving is modelled in `Protocol` and `Flights` between those calls.
- A negative batch limit: configuration refuses it, and `limit` is a natural number here.
- RateLimiterObject.RateLimiter.Append: the buffer grows by doubling plus one; Go's growth policy is its own and no result depends on it.
- MemoryRepository.Repository.CollectCandidates: candidates are ids rather than record pointers, and the library sort is an insertion sort; the order is total, so the sorted list is the same.
- MemoryRepository.Repository.ComputeClaims: the transition's error branch is not there, because a pending row can always be claimed.
- WorkerObject.Worker.Process: one worker flying alone; flights shared between callers, with other steps in between, are in `Flights`.
- DispatcherObject.Dispatcher.ClaimAndDispatch: one task after another, as in `DrainOnTrigger`; `InterleavedDrain.PassKeepsBacklog` has the pool.
- DispatcherObject.Dispatcher.ProcessAll: one task after another, as in `DrainOnTrigger`; `InterleavedDrain.PassKeepsBacklog` has the pool.
- DispatcherObject.Dispatcher.DrainOnTrigger: the pool's tasks run one after another here (`InterleavedDrain.DrainIsExact` has every interleaving); claim errors and cancellation, which only end a drain early, are left out; the clock stands still, base and maximum backoff are between 2ns and 4/5 of 2^63, and no Retry-After is longer, as the exact count needs (`Drain.NeverDueAtOnceIff`, `Drain.FarRetryAfterRejoins`).
- Flights.AlwaysGood: queued tasks may start in any order, not only in the batch's, so the result covers more schedules than the pool allows; what other processes do is any client or worker operation.
- Idempotency.RequestUpdate: runs without interference; `SameKeySameAnswer` has the interference.
- Postgres.InsertAgrees: a duplicate id, which the table reports before a taken key, does not occur, since ids are fresh. The class's other statements are proved equal to the table functions that this and the other agreement lemmas are about.
- PostgresRepository.Repository.CompleteSuccess: one transaction at a time; waiting on a concurrent insert of the same quote ends in the conflict branch modelled here.
- Postgres.ClaimsAgreeIff: the split selection is a relation, as SQL leaves ties open, and the class has no claim method; FOR UPDATE SKIP LOCKED (rows locked by another transaction are skipped) and the order of RETURNING are not modelled.
- Policy.ReuseIsFresh: the bound follows from the exchangerate.dev adapter's rule; other providers have their own.
