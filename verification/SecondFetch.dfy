/** When single-flight lets a pair be fetched twice: the quote is put into the
    journal after the flight has landed, by its callers. */
module SecondFetch {
  import opened Wrappers
  import opened Domain
  import opened Queue
  import opened Policy
  import opened Flights

  /** A flight past reuse saw no quote of its pair fresh at its reading, and
      what it saw is still in the journal. */
  ghost predicate SightOk(store: Store, flight: Flight) {
    && (!flight.stage.Started? && !(flight.stage.Landed? && !flight.stage.resolution.Fetched?) ==> flight.sight.Some?)
    && (flight.sight.Some? ==>
          && (forall q | q in flight.sight.value.quotes :: q in store.quotes
               && store.quotes[q] == flight.sight.value.quotes[q])
          && NothingFresh(flight.sight.value, flight.pair))
  }

  ghost predicate NothingFresh(sight: Sight, pair: Pair) {
    forall q | q in sight.quotes && IsLatest(sight.quotes, pair, q) :: sight.quotes[q].rate.staleAfter <= sight.readAt
  }

  predicate FinishedWith(tasks: seq<Task>, f: nat, q: nat) {
    exists t :: 0 <= t < |tasks| && tasks[t] == Finished(f, q)
  }

  /** A row this process posted holds its flight's rate, is younger than all
      that flight saw, and was recorded by one of its callers. */
  predicate PostOk(store: Store, tasks: seq<Task>, flights: seq<Flight>, q: nat, f: nat) {
    && f < |flights| && flights[f].stage.Landed? && flights[f].stage.resolution.Fetched?
    && q in store.quotes && store.quotes[q] == StoredQuote(flights[f].pair, flights[f].stage.resolution.rate)
    && (flights[f].sight.Some? ==> forall r | r in flights[f].sight.value.quotes :: r < q)
    && FinishedWith(tasks, f, q)
  }

  ghost predicate SightsOk(s: State) {
    forall f | 0 <= f < |s.flights| :: SightOk(s.store, s.flights[f])
  }

  predicate PostsOk(s: State) {
    forall q | q in s.posted :: PostOk(s.store, s.tasks, s.flights, q, s.posted[q])
  }

  /** A row a finish adds to the journal is its flight's rate, under the newest id. */
  lemma FinishPosts(pool: Pool, s: State, t: nat, env: Env)
    requires Good(pool, s) && Enabled(pool, s, Finish(t, env))
    ensures var store, q := Settled(pool, s, t, env).0, QuoteRecorded(pool, s, t, env);
            var resolution := s.flights[s.tasks[t].flight].stage.resolution;
            q != 0 && q !in s.store.quotes ==>
              && resolution.Fetched? && q in store.quotes
                   && store.quotes[q] == StoredQuote(pool.reqs[t].pair, resolution.rate)
              && forall r | r in s.store.quotes :: r < q
  {
    FinishRecords(pool, s, t, env);
    assert FlightOk(s.store, s.tasks, s.flights, s.tasks[t].flight) && TaskOk(pool, s.store, s.tasks, s.flights, t);
    var resolution := s.flights[s.tasks[t].flight].stage.resolution;
    if resolution.Fetched? { PostIs(s.store, pool.reqs[t].pair, resolution.rate); }
  }

  lemma FinishKeepsSights(pool: Pool, s: State, t: nat, env: Env)
    requires Good(pool, s) && Enabled(pool, s, Finish(t, env)) && SightsOk(s)
    ensures SightsOk(Next(pool, s, Finish(t, env)))
  {
    FinishRecords(pool, s, t, env);
    var u := Next(pool, s, Finish(t, env));
    forall f | 0 <= f < |u.flights| ensures SightOk(u.store, u.flights[f]) { assert SightOk(s.store, s.flights[f]); }
  }

  /** A post stays right as the store grows and another task finishes. */
  lemma PostStays(store: Store, later: Store, tasks: seq<Task>, flights: seq<Flight>, q: nat, f: nat, t: nat,
          task: Task)
    requires PostOk(store, tasks, flights, q, f) && Grown(store, later) && t < |tasks| && tasks[t].Running?
    ensures PostOk(later, tasks[t := task], flights, q, f)
  {
    var o :| 0 <= o < |tasks| && tasks[o] == Finished(f, q);
    assert tasks[t := task][o] == tasks[o];
  }

  lemma FinishKeepsPosts(pool: Pool, s: State, t: nat, env: Env)
    requires Good(pool, s) && Enabled(pool, s, Finish(t, env)) && SightsOk(s) && PostsOk(s)
    ensures PostsOk(Next(pool, s, Finish(t, env)))
  {
    var u, f, q := Next(pool, s, Finish(t, env)), s.tasks[t].flight, QuoteRecorded(pool, s, t, env);
    FinishRecords(pool, s, t, env);
    forall p | p in s.posted ensures PostOk(u.store, u.tasks, u.flights, p, s.posted[p]) {
      assert PostOk(s.store, s.tasks, s.flights, p, s.posted[p]);
      PostStays(s.store, u.store, s.tasks, s.flights, p, s.posted[p], t, u.tasks[t]);
    }
    if q != 0 && q !in s.store.quotes { NewPost(pool, s, t, env); }
  }

  lemma NewPost(pool: Pool, s: State, t: nat, env: Env)
    requires Good(pool, s) && Enabled(pool, s, Finish(t, env)) && SightsOk(s)
    requires QuoteRecorded(pool, s, t, env) != 0 && QuoteRecorded(pool, s, t, env) !in s.store.quotes
    ensures var u := Next(pool, s, Finish(t, env));
            PostOk(u.store, u.tasks, u.flights, QuoteRecorded(pool, s, t, env), s.tasks[t].flight)
  {
    var u, f, q := Next(pool, s, Finish(t, env)), s.tasks[t].flight, QuoteRecorded(pool, s, t, env);
    FinishPosts(pool, s, t, env);
    assert TaskOk(pool, s.store, s.tasks, s.flights, t) && SightOk(s.store, s.flights[f]);
    assert u.tasks[t] == Finished(f, q);
  }

  lemma LookUpKeepsSights(pool: Pool, s: State, f: nat, readAt: Time, readFault: Option<string>)
    requires Good(pool, s) && Enabled(pool, s, LookUp(f, readAt, readFault)) && SightsOk(s)
    ensures SightsOk(Next(pool, s, LookUp(f, readAt, readFault)))
  {
    var u := Next(pool, s, LookUp(f, readAt, readFault));
    forall g | 0 <= g < |u.flights| ensures SightOk(u.store, u.flights[g]) {
      assert SightOk(s.store, s.flights[g]);
      if g == f && u.flights[f].sight.Some? {
        forall q | q in s.store.quotes
            && IsLatest(s.store.quotes, s.flights[f].pair, q) ensures s.store.quotes[q].rate.staleAfter <= readAt {
          LatestIs(s.store.quotes, s.flights[f].pair, q);
        }
      }
    }
  }

  lemma StepKeepsSights(pool: Pool, s: State, step: Step)
    requires Good(pool, s) && Enabled(pool, s, step) && SightsOk(s)
    ensures SightsOk(Next(pool, s, step))
  {
    match step
    case Finish(t, env) => FinishKeepsSights(pool, s, t, env);
    case LookUp(f, readAt, readFault) => LookUpKeepsSights(pool, s, f, readAt, readFault);
    case Others(op) =>
      StepKeeps(s.store, op);
      var u := Next(pool, s, step);
      forall f | 0 <= f < |u.flights| ensures SightOk(u.store, u.flights[f]) { assert SightOk(s.store, s.flights[f]); }
    case _ =>
      var u := Next(pool, s, step);
      forall f | 0 <= f < |u.flights| ensures SightOk(u.store, u.flights[f]) { assert f < |s.flights| ==>
          SightOk(s.store, s.flights[f]); }
  }

  lemma StepKeepsPosts(pool: Pool, s: State, step: Step)
    requires Good(pool, s) && Enabled(pool, s, step) && SightsOk(s) && PostsOk(s)
    ensures PostsOk(Next(pool, s, step))
  {
    if step.Finish? {
      FinishKeepsPosts(pool, s, step.t, step.env);
    } else {
      if step.Others? { StepKeeps(s.store, step.op); }
      var u := Next(pool, s, step);
      forall q | q in u.posted ensures PostOk(u.store, u.tasks, u.flights, q, u.posted[q]) {
        assert PostOk(s.store, s.tasks, s.flights, q, s.posted[q]);
        var o :| 0 <= o < |s.tasks| && s.tasks[o] == Finished(s.posted[q], q);
        assert u.tasks[o] == s.tasks[o];
      }
    }
  }

  lemma {:induction false} AlwaysTracked(pool: Pool, store: Store, book: RateLimiting.Book, steps: seq<Step>)
    requires Claimed(pool, store) && Runs(pool, store, book, steps)
    ensures SightsOk(After(pool, store, book, steps)) && PostsOk(After(pool, store, book, steps))
    decreases |steps|
  {
    if steps == [] {
    } else {
      AlwaysTracked(pool, store, book, steps[..|steps| - 1]);
      AlwaysGood(pool, store, book, steps[..|steps| - 1]);
      StepKeepsSights(pool, After(pool, store, book, steps[..|steps| - 1]), steps[|steps| - 1]);
      StepKeepsPosts(pool, After(pool, store, book, steps[..|steps| - 1]), steps[|steps| - 1]);
    }
  }

  // ------------------------------------------------------ the exact condition

  /** Flight g, which has not looked yet, would find nothing to reuse. */
  ghost predicate GoesPastReuse(pool: Pool, s: State, g: nat, readAt: Time)
    requires |s.tasks| == |pool.reqs| && Enabled(pool, s, LookUp(g, readAt, None))
  {
    Next(pool, s, LookUp(g, readAt, None)).flights[g].stage.PastReuse?
  }

  /** A row put into the journal since `sight` that is now the pair's latest, and fresh. */
  ghost predicate NewAndFresh(quotes: map<nat, StoredQuote>, sight: Sight, pair: Pair, q: nat, readAt: Time) {
    q !in sight.quotes && IsLatest(quotes, pair, q) && readAt < quotes[q].rate.staleAfter
  }

  /** In every interleaving with everyone else: a second flight of a pair,
      whose clock reading is no earlier than that of one that went past reuse
      before it, goes past reuse too if and only if nobody has meanwhile put
      the pair's latest quote into the journal, still fresh. */
  lemma PastReuseAgainIff(pool: Pool, store: Store, book: RateLimiting.Book, steps: seq<Step>, f: nat, g: nat,
          readAt: Time)
    requires Claimed(pool, store) && Runs(pool, store, book, steps)
    requires var s := After(pool, store, book, steps);
             && f < |s.flights| && s.flights[f].sight.Some? && s.flights[f].sight.value.readAt <= readAt
             && Enabled(pool, s, LookUp(g, readAt, None)) && s.flights[g].pair == s.flights[f].pair
    ensures var s := After(pool, store, book, steps);
            GoesPastReuse(pool, s, g, readAt)
            <==> !exists q: nat :: NewAndFresh(s.store.quotes, s.flights[f].sight.value, s.flights[f].pair, q, readAt)
  {
    var s := After(pool, store, book, steps);
    AlwaysTracked(pool, store, book, steps);
    assert SightOk(s.store, s.flights[f]);
    var quotes, sight, pair := s.store.quotes, s.flights[f].sight.value, s.flights[f].pair;
    if q: nat :| NewAndFresh(quotes, sight, pair, q, readAt) {
      LatestIs(quotes, pair, q);
    } else if Latest(quotes, pair).Some? {
      var q := Latest(quotes, pair).value;
      if q in sight.quotes { SeenLatest(quotes, sight, pair, q); }
      assert !NewAndFresh(quotes, sight, pair, q, readAt);
    }
  }

  /** A row that is the latest now and was there before was the latest then. */
  lemma SeenLatest(quotes: map<nat, StoredQuote>, sight: Sight, pair: Pair, q: nat)
    requires forall r | r in sight.quotes :: r in quotes && quotes[r] == sight.quotes[r]
    requires IsLatest(quotes, pair, q) && q in sight.quotes
    ensures IsLatest(sight.quotes, pair, q)
  {
    forall r | r in sight.quotes
        && sight.quotes[r].pair == pair ensures NotNewer(sight.quotes, r, q) { assert NotNewer(quotes, r, q); }
  }

  /** Since flight f looked, only its own callers have put quotes of its pair
      into the journal. */
  predicate OnlyItsOwn(s: State, f: nat)
    requires f < |s.flights| && s.flights[f].sight.Some?
  {
    forall q | q in s.store.quotes && s.store.quotes[q].pair == s.flights[f].pair
        && q !in s.flights[f].sight.value.quotes ::
      q in s.posted && s.posted[q] == f
  }

  /** A caller of the flight has put its rate into the journal. */
  predicate CallerPosted(s: State, f: nat)
    requires f < |s.flights| && s.flights[f].sight.Some?
  {
    exists t :: 0 <= t < |s.tasks| && CallerPostedBy(s, f, t)
  }

  predicate CallerPostedBy(s: State, f: nat, t: nat)
    requires f < |s.flights| && s.flights[f].sight.Some? && t < |s.tasks|
  {
    s.tasks[t].Finished? && s.tasks[t].flight == f && s.tasks[t].quoteId != 0
        && s.tasks[t].quoteId !in s.flights[f].sight.value.quotes
  }

  /** The journal the flight saw holds a later-quoted row of the pair: by then stale. */
  predicate OutquotedBefore(flight: Flight, rate: Rate)
    requires flight.sight.Some?
  {
    exists r :: r in flight.sight.value.quotes && flight.sight.value.quotes[r].pair == flight.pair
                && flight.sight.value.quotes[r].rate.quotedAt > rate.quotedAt
  }

  lemma PostedOnce(pool: Pool, s: State, f: nat, q: nat, rate: Rate)
    requires Good(pool, s) && SightsOk(s) && PostsOk(s)
    requires f < |s.flights| && s.flights[f].stage == Landed(Fetched(rate)) && s.flights[f].sight.Some?
    requires OnlyItsOwn(s, f)
    requires Holds(s.store.quotes, q, s.flights[f].pair, rate) && q !in s.flights[f].sight.value.quotes
    ensures s.store.quotes[q].rate == rate
    ensures forall r | r in s.store.quotes && s.store.quotes[r].pair == s.flights[f].pair
            && r != q :: r in s.flights[f].sight.value.quotes && r < q
  {
    var quotes := s.store.quotes;
    assert PostOk(s.store, s.tasks, s.flights, q, s.posted[q]);
    forall r | r in quotes && quotes[r].pair == s.flights[f].pair
        && r !in s.flights[f].sight.value.quotes ensures r == q {
      assert PostOk(s.store, s.tasks, s.flights, r, s.posted[r]);
      assert SameQuote(quotes[r], quotes[q].pair, quotes[q].rate);
    }
  }

  /** The fresh rate of a landed flight does not keep the next flight of the
      pair from going past reuse if and only if no caller has put it into the
      journal yet, or the journal's latest is a later-quoted row that was
      already stale. (When others put quotes of the pair there as well,
      PastReuseAgainIff has the condition.) */
  lemma SecondFetchIff(pool: Pool, store: Store, book: RateLimiting.Book, steps: seq<Step>, f: nat, rate: Rate, g: nat,
          readAt: Time)
    requires Claimed(pool, store) && Runs(pool, store, book, steps)
    requires var s := After(pool, store, book, steps);
             && f < |s.flights| && s.flights[f].stage == Landed(Fetched(rate)) && s.flights[f].sight.Some?
             && s.flights[f].sight.value.readAt <= readAt < rate.staleAfter && OnlyItsOwn(s, f)
             && Enabled(pool, s, LookUp(g, readAt, None)) && s.flights[g].pair == s.flights[f].pair
    ensures var s := After(pool, store, book, steps);
            GoesPastReuse(pool, s, g, readAt) <==> !CallerPosted(s, f) || OutquotedBefore(s.flights[f], rate)
  {
    var s := After(pool, store, book, steps);
    AlwaysTracked(pool, store, book, steps);
    AlwaysGood(pool, store, book, steps);
    PastReuseAgainIff(pool, store, book, steps, f, g, readAt);
    assert SightOk(s.store, s.flights[f]);
    var quotes, sight, pair := s.store.quotes, s.flights[f].sight.value, s.flights[f].pair;
    if CallerPosted(s, f) {
      var t :| 0 <= t < |s.tasks| && CallerPostedBy(s, f, t);
      var q := s.tasks[t].quoteId;
      assert TaskOk(pool, s.store, s.tasks, s.flights, t);
      PostedOnce(pool, s, f, q, rate);
      if OutquotedBefore(s.flights[f], rate) {
        var r :| r in sight.quotes && sight.quotes[r].pair == pair && sight.quotes[r].rate.quotedAt > rate.quotedAt;
        forall p: nat | IsLatest(quotes, pair, p) ensures p in sight.quotes {
          assert NotNewer(quotes, r, p);
        }
      } else {
        forall r | r in quotes && quotes[r].pair == pair ensures NotNewer(quotes, r, q) {
          assert r != q ==> r in sight.quotes;
        }
        assert NewAndFresh(quotes, sight, pair, q, readAt);
      }
    } else {
      forall p: nat ensures !NewAndFresh(quotes, sight, pair, p, readAt) {
        if IsLatest(quotes, pair, p) && p !in sight.quotes { NotPosted(s, f, p); }
      }
    }
  }

  /** A row only callers of f can have posted is there only if one has. */
  lemma NotPosted(s: State, f: nat, p: nat)
    requires PostsOk(s) && SightsOk(s) && f < |s.flights| && s.flights[f].sight.Some? && OnlyItsOwn(s, f)
    requires p in s.store.quotes && s.store.quotes[p].pair == s.flights[f].pair
    requires p !in s.flights[f].sight.value.quotes && p != 0
    ensures CallerPosted(s, f)
  {
    assert PostOk(s.store, s.tasks, s.flights, p, f);
    var t :| 0 <= t < |s.tasks| && s.tasks[t] == Finished(f, p);
    assert CallerPostedBy(s, f, t);
  }
}
