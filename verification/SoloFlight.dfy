/** A flight flown with nothing in between is the worker's fetch: the stages
    the process takes one at a time add up to what one call of it does. */
module SoloFlight {
  import opened Wrappers
  import opened Domain
  import opened Queue
  import opened Policy
  import opened Flights
  import opened FlightRuns
  import SharedBudget

  /** The steps of a flight, in order; it stops at the one that lands it. */
  function Stages(f: nat, env: Env): seq<Step> {
    [LookUp(f, env.readAt, env.readFault), AskLimiter(f, env.allowAt), CallProvider(f),
        HearBack(f, env.answer, env.answeredAt)]
  }

  ghost function FetchBy(pool: Pool, s: State, f: nat, env: Env): (RateLimiting.Book, Resolution, bool)
    requires f < |s.flights|
  {
    Fetch(s.store.quotes, Latest(s.store.quotes, s.flights[f].pair), pool.limits, s.budget.book, pool.provider, env)
  }

  /** The flight has landed with this, and only it and the budget have moved. */
  predicate LandedWith(s: State, u: State, f: nat, book: RateLimiting.Book, resolution: Resolution, called: bool)
    requires f < |s.flights|
  {
    && |u.flights| == |s.flights| && u.flights[f].stage == Landed(resolution)
    && u.store == s.store && u.tasks == s.tasks && u.posted == s.posted
    && (forall g | 0 <= g < |s.flights| && g != f :: u.flights[g] == s.flights[g])
    && u.budget.book == book && u.budget.calls == s.budget.calls + if called then [f] else []
  }

  lemma LookUpLands(pool: Pool, s: State, f: nat, env: Env)
    requires |s.tasks| == |pool.reqs| && At(s, f, Started)
    ensures var u := Next(pool, s, Stages(f, env)[0]);
            var (book, resolution, called) := FetchBy(pool, s, f, env);
            if u.flights[f].stage.Landed? then LandedWith(s, u, f, book, resolution, called)
            else At(u, f, PastReuse) && Ongoing(s, u, f) && u.budget == s.budget
                 && (book, resolution, called) == FetchFresh(pool.limits, u.budget.book, pool.provider, env)
  {
    assert s.budget.calls + [] == s.budget.calls;
  }

  /** The flight has gone on, and nothing but it and the budget has moved. */
  predicate Ongoing(s: State, u: State, f: nat)
    requires f < |s.flights|
  {
    && |u.flights| == |s.flights| && u.store == s.store && u.tasks == s.tasks && u.posted == s.posted
    && (forall g | 0 <= g < |s.flights| && g != f :: u.flights[g] == s.flights[g])
  }

  lemma AskLands(pool: Pool, s: State, f: nat, env: Env)
    requires |s.tasks| == |pool.reqs| && At(s, f, PastReuse)
    ensures var u := Next(pool, s, Stages(f, env)[1]);
            var (book, resolution, called) := FetchFresh(pool.limits, s.budget.book, pool.provider, env);
            && u.budget.calls == s.budget.calls && Ongoing(s, u, f)
            && u.budget.book == Ask(pool.limits, s.budget.book, env.allowAt).0
            && (if u.flights[f].stage.Landed? then LandedWith(s, u, f, book, resolution, called)
                else At(u, f, Cleared) && called
                     && (book, resolution) == Hear(pool.limits, u.budget.book, pool.provider, env.answer,
                          env.answeredAt))
  {
    assert s.budget.calls + [] == s.budget.calls;
  }

  lemma CallLands(pool: Pool, s: State, f: nat, env: Env)
    requires |s.tasks| == |pool.reqs| && At(s, f, Cleared)
    ensures var called := Next(pool, s, Stages(f, env)[2]);
            && At(called, f, Calling) && Ongoing(s, called, f)
            && (var u := Next(pool, called, Stages(f, env)[3]);
                var (book, resolution) := Hear(pool.limits, s.budget.book, pool.provider, env.answer, env.answeredAt);
                LandedWith(s, u, f, book, resolution, true))
  {}

  /** What lands after going on has landed from where it started. */
  lemma Through(s: State, u: State, v: State, f: nat, book: RateLimiting.Book, resolution: Resolution, called: bool)
    requires f < |s.flights| && Ongoing(s, u, f) && u.budget.calls == s.budget.calls
    requires LandedWith(u, v, f, book, resolution, called)
    ensures LandedWith(s, v, f, book, resolution, called)
  {}

  /** From any reachable state, a started flight flown alone through its four
      stages, stopped where it lands, lands with the fetch's resolution and
      leaves the limiter with the fetch's book; it is among the provider's
      calls if and only if the fetch says it called. */
  lemma FlownAloneIsFetch(pool: Pool, store: Store, book: RateLimiting.Book, before: seq<Step>, f: nat, env: Env)
    returns (steps: seq<Step>, k: nat)
    requires Runs(pool, store, book, before) && At(After(pool, store, book, before), f, Started)
    ensures 1 <= k <= 4 && steps == before + Stages(f, env)[..k] && Runs(pool, store, book, steps)
    ensures var s, u := After(pool, store, book, before), After(pool, store, book, steps);
            var (after, resolution, called) := FetchBy(pool, s, f, env);
            && LandedWith(s, u, f, after, resolution, called)
            && (f in u.budget.calls <==> called)
  {
    var s := After(pool, store, book, before);
    var (after, resolution, called) := FetchBy(pool, s, f, env);
    var stages := Stages(f, env);
    NotYetCalled(pool, store, book, before, f);
    LookUpLands(pool, s, f, env);
    steps := Fly(pool, store, book, before, stages[0]);
    k := 1;
    assert stages[..1] == [stages[0]];
    var u1 := After(pool, store, book, steps);
    if !u1.flights[f].stage.Landed? {
      steps, k := FlyFresh(pool, store, book, before, steps, f, env);
      Through(s, u1, After(pool, store, book, steps), f, after, resolution, called);
    }
  }

  lemma NotYetCalled(pool: Pool, store: Store, book: RateLimiting.Book, before: seq<Step>, f: nat)
    requires Runs(pool, store, book, before) && At(After(pool, store, book, before), f, Started)
    ensures f !in After(pool, store, book, before).budget.calls
  {
    SharedBudget.AlwaysPaid(pool, store, book, before);
    var s := After(pool, store, book, before);
    assert SharedBudget.FlightPaid(s.flights, s.budget, f);
  }

  /** The same from past reuse on. */
  lemma FlyFresh(pool: Pool, store: Store, book: RateLimiting.Book, before: seq<Step>, looked: seq<Step>, f: nat,
          env: Env)
    returns (steps: seq<Step>, k: nat)
    requires looked == before + [Stages(f, env)[0]] && Runs(pool, store, book, looked)
    requires At(After(pool, store, book, looked), f, PastReuse)
    ensures 2 <= k <= 4 && steps == before + Stages(f, env)[..k] && Runs(pool, store, book, steps)
    ensures var s := After(pool, store, book, looked);
            var (after, resolution, called) := FetchFresh(pool.limits, s.budget.book, pool.provider, env);
            LandedWith(s, After(pool, store, book, steps), f, after, resolution, called)
  {
    var s := After(pool, store, book, looked);
    var (after, resolution, called) := FetchFresh(pool.limits, s.budget.book, pool.provider, env);
    var stages := Stages(f, env);
    AskLands(pool, s, f, env);
    steps := Fly(pool, store, book, looked, stages[1]);
    k := 2;
    assert stages[..2] == [stages[0]] + [stages[1]];
    var u := After(pool, store, book, steps);
    if !u.flights[f].stage.Landed? {
      CallLands(pool, u, f, env);
      steps := Fly(pool, store, book, steps, stages[2]);
      steps := Fly(pool, store, book, steps, stages[3]);
      k := 4;
      assert stages[..4] == [stages[0]] + [stages[1]] + [stages[2]] + [stages[3]];
      Through(s, u, After(pool, store, book, steps), f, after, resolution, true);
    }
  }
}
