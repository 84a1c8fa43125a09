/** The sliding-window limiter on values: the pruned list the service keeps,
    and the full call history it stands for. */
module RateLimiting {
  import opened Domain

  datatype Verdict = Admitted | Refused(retryAfter: Duration)

  /** What one process sees over time: calls that ask for admission, and
      upstream Retry-After signals. */
  datatype Event = Allow(now: Time) | CoolDown(until: Time)

  datatype Limits = Limits(perMinute: int, perHour: int)

  /** `calls` is the whole history or, in the service, what pruning left of it. */
  datatype Book = Book(calls: seq<Time>, blockedUntil: Time)

  const EMPTY := Book([], ZERO_TIME)

  /** The elements of `calls` strictly after `cutoff`, in order. */
  function After(calls: seq<Time>, cutoff: Time): (kept: seq<Time>)
    ensures |kept| <= |calls|
  {
    if calls == [] then []
    else
      var kept := After(calls[..|calls| - 1], cutoff);
      if calls[|calls| - 1] > cutoff then kept + [calls[|calls| - 1]] else kept
  }

  /** The verdict at `now`: cooldown first, then the hour, then the minute. */
  function Decide(limits: Limits, book: Book, now: Time): Verdict {
    if now < book.blockedUntil then Refused(book.blockedUntil - now)
    else
      var inHour, inMinute := After(book.calls, now - HOUR), After(book.calls, now - MINUTE);
      if limits.perHour > 0 && |inHour| >= limits.perHour then Refused(inHour[0] + HOUR - now)
      else if limits.perMinute > 0 && |inMinute| >= limits.perMinute then Refused(inMinute[0] + MINUTE - now)
      else Admitted
  }

  function Raise(book: Book, until: Time): Book {
    book.(blockedUntil := if until > book.blockedUntil then until else book.blockedUntil)
  }

  /** One event on the unpruned history. */
  function FullStep(limits: Limits, book: Book, e: Event): Book {
    match e
    case CoolDown(until) => Raise(book, until)
    case Allow(now) =>
      if Decide(limits, book, now).Admitted? then book.(calls := book.calls + [now]) else book
  }

  /** One event on the service's list: an Allow outside a cooldown first drops
      everything an hour old, whatever the verdict. */
  function PrunedStep(limits: Limits, book: Book, e: Event): Book {
    match e
    case CoolDown(until) => Raise(book, until)
    case Allow(now) =>
      if now < book.blockedUntil then book
      else FullStep(limits, book.(calls := After(book.calls, now - HOUR)), e)
  }

  function FullRun(limits: Limits, book: Book, es: seq<Event>): Book
    decreases |es|
  {
    if es == [] then book else FullRun(limits, FullStep(limits, book, es[0]), es[1..])
  }

  function PrunedRun(limits: Limits, book: Book, es: seq<Event>): Book
    decreases |es|
  {
    if es == [] then book else PrunedRun(limits, PrunedStep(limits, book, es[0]), es[1..])
  }

  /** The answers a run gives, one per Allow. */
  function FullVerdicts(limits: Limits, book: Book, es: seq<Event>): seq<Verdict>
    decreases |es|
  {
    if es == [] then []
    else (if es[0].Allow? then [Decide(limits, book, es[0].now)] else [])
         + FullVerdicts(limits, FullStep(limits, book, es[0]), es[1..])
  }

  function PrunedVerdicts(limits: Limits, book: Book, es: seq<Event>): seq<Verdict>
    decreases |es|
  {
    if es == [] then []
    else (if es[0].Allow? then [Decide(limits, book, es[0].now)] else [])
         + PrunedVerdicts(limits, PrunedStep(limits, book, es[0]), es[1..])
  }

  /** The time at which this event lets a call through, if it does. */
  function Admission(limits: Limits, book: Book, e: Event): seq<Time> {
    if e.Allow? && Decide(limits, book, e.now).Admitted? then [e.now] else []
  }

  /** The times at which the service lets a call through. */
  function Admissions(limits: Limits, book: Book, es: seq<Event>): seq<Time>
    decreases |es|
  {
    if es == [] then [] else Admission(limits, book, es[0]) + Admissions(limits, PrunedStep(limits, book, es[0]),
        es[1..])
  }

  /** Allow times never go back, starting from `start`; cooldowns are free. */
  predicate Monotone(es: seq<Event>, start: Time) {
    es == []
    || (if es[0].Allow? then start <= es[0].now && Monotone(es[1..], es[0].now) else Monotone(es[1..], start))
  }

  /** The last Allow time of a run that starts at `start`. */
  function LastAllow(es: seq<Event>, start: Time): Time {
    if es == [] then start else LastAllow(es[1..], if es[0].Allow? then es[0].now else start)
  }

  predicate Ascending(calls: seq<Time>, last: Time) {
    && (forall i, j | 0 <= i < j < |calls| :: calls[i] <= calls[j])
    && (forall i | 0 <= i < |calls| :: calls[i] <= last)
  }

  /** Fewer than `limit` of the calls lie in the window of length `window`
      that ends at `now`; a limit of 0 or less is no limit. */
  predicate Room(calls: seq<Time>, limit: int, window: Duration, now: Time) {
    limit <= 0 || |calls| < limit || calls[|calls| - limit] + window <= now
  }

  predicate SpacedAt(calls: seq<Time>, limit: nat, window: Duration, i: nat)
    requires i + limit < |calls|
  {
    calls[i] + window <= calls[i + limit]
  }

  /** Any limit + 1 consecutive calls span at least the window. */
  predicate Spaced(calls: seq<Time>, limit: int, window: Duration) {
    limit > 0 ==> forall i: nat | i < |calls| - limit :: SpacedAt(calls, limit, window, i)
  }

  // ---------------------------------------------------------------- windows

  lemma {:induction false} AfterAfter(calls: seq<Time>, early: Time, late: Time)
    requires early <= late
    ensures After(After(calls, early), late) == After(calls, late)
  {
    if calls == [] {
    } else {
      var init := calls[..|calls| - 1];
      AfterAfter(init, early, late);
      if calls[|calls| - 1] > early {
        var kept := After(calls, early);
        assert kept[..|kept| - 1] == After(init, early);
      }
    }
  }

  lemma AfterAppend(calls: seq<Time>, cutoff: Time, now: Time)
    ensures After(calls + [now], cutoff) == After(calls, cutoff) + if now > cutoff then [now] else []
  {
    assert (calls + [now])[..|calls|] == calls;
  }

  lemma {:induction false} AfterIn(calls: seq<Time>, cutoff: Time)
    ensures forall x | x in After(calls, cutoff) :: x in calls && x > cutoff
  {
    if calls == [] {
    } else {
      AfterIn(calls[..|calls| - 1], cutoff);
    }
  }

  lemma {:induction false} AllOld(calls: seq<Time>, cutoff: Time)
    requires forall i | 0 <= i < |calls| :: calls[i] <= cutoff
    ensures After(calls, cutoff) == []
  {
    if calls == [] {
    } else {
      AllOld(calls[..|calls| - 1], cutoff);
    }
  }

  /** `kept` is the part of an ascending list after the cutoff. */
  predicate IsTail(calls: seq<Time>, cutoff: Time, kept: seq<Time>) {
    |kept| <= |calls|
    && (var k := |calls| - |kept|;
        && kept == calls[k..]
        && (k > 0 ==> calls[k - 1] <= cutoff)
        && (k < |calls| ==> calls[k] > cutoff))
  }

  lemma TailGrows(calls: seq<Time>, cutoff: Time, kept: seq<Time>, x: Time)
    requires IsTail(calls, cutoff, kept) && x > cutoff
    ensures IsTail(calls + [x], cutoff, kept + [x])
  {
    var k := |calls| - |kept|;
    assert (calls + [x])[k..] == calls[k..] + [x];
  }

  lemma NothingKept(calls: seq<Time>, cutoff: Time)
    requires forall i | 0 <= i < |calls| :: calls[i] <= cutoff
    ensures IsTail(calls, cutoff, [])
  {
    assert calls[|calls|..] == [];
  }

  /** On an ascending list the survivors are a suffix. */
  lemma {:induction false} AfterIsSuffix(calls: seq<Time>, cutoff: Time, last: Time)
    requires Ascending(calls, last)
    ensures IsTail(calls, cutoff, After(calls, cutoff))
  {
    if calls == [] {
      NothingKept(calls, cutoff);
    } else {
      var init, x := calls[..|calls| - 1], calls[|calls| - 1];
      if x > cutoff {
        AfterIsSuffix(init, cutoff, last);
        TailGrows(init, cutoff, After(init, cutoff), x);
        assert calls == init + [x];
        AfterAppend(init, cutoff, x);
      } else {
        AllOld(calls, cutoff);
        NothingKept(calls, cutoff);
      }
    }
  }

  /** A window is full exactly when the call `limit` places from the end is in it. */
  lemma WindowFull(calls: seq<Time>, limit: int, window: Duration, now: Time, last: Time)
    requires Ascending(calls, last)
    ensures Room(calls, limit, window, now) <==> !(limit > 0 && |After(calls, now - window)| >= limit)
  {
    AfterIsSuffix(calls, now - window, last);
  }

  /** A call is admitted exactly when no cooldown is on and each window has
      room, judged on the two history entries perHour and perMinute places
      from its end: the independent reading of the two counting passes. */
  lemma AdmissionExact(limits: Limits, book: Book, now: Time, last: Time)
    requires Ascending(book.calls, last)
    ensures Decide(limits, book, now).Admitted?
            <==> && book.blockedUntil <= now
                 && Room(book.calls, limits.perHour, HOUR, now)
                 && Room(book.calls, limits.perMinute, MINUTE, now)
  {
    WindowFull(book.calls, limits.perHour, HOUR, now, last);
    WindowFull(book.calls, limits.perMinute, MINUTE, now, last);
  }

  // ------------------------------------------------- pruning loses nothing

  /** `pruned` is `full` without a prefix no window at or after `last` can see. */
  predicate Represents(pruned: Book, full: Book, cutoff: Time, last: Time) {
    && pruned.blockedUntil == full.blockedUntil
    && cutoff <= last - HOUR
    && pruned.calls == After(full.calls, cutoff)
  }

  lemma SameDecision(limits: Limits, pruned: Book, full: Book, cutoff: Time, last: Time, now: Time)
    requires Represents(pruned, full, cutoff, last) && last <= now
    ensures Decide(limits, pruned, now) == Decide(limits, full, now)
    ensures Decide(limits, pruned.(calls := After(pruned.calls, now - HOUR)), now) == Decide(limits, full, now)
  {
    AfterAfter(full.calls, cutoff, now - HOUR);
    AfterAfter(full.calls, cutoff, now - MINUTE);
    SameWindows(limits, pruned, full, now);
    AfterAfter(full.calls, now - HOUR, now - HOUR);
    AfterAfter(full.calls, now - HOUR, now - MINUTE);
    SameWindows(limits, pruned.(calls := After(pruned.calls, now - HOUR)), full, now);
  }

  /** The verdict depends on the two windows and the cooldown alone. */
  lemma SameWindows(limits: Limits, a: Book, b: Book, now: Time)
    requires a.blockedUntil == b.blockedUntil
    requires After(a.calls, now - HOUR) == After(b.calls, now - HOUR)
    requires After(a.calls, now - MINUTE) == After(b.calls, now - MINUTE)
    ensures Decide(limits, a, now) == Decide(limits, b, now)
  {}

  /** What one Allow outside a cooldown does to the service's list. */
  lemma PrunedAllow(limits: Limits, book: Book, now: Time)
    requires book.blockedUntil <= now
    ensures var admitted := Decide(limits, book, now).Admitted?;
            PrunedStep(limits, book, Allow(now))
            == Book(After(book.calls, now - HOUR) + if admitted then [now] else [], book.blockedUntil)
  {
    AfterAfter(book.calls, now - HOUR, now - HOUR);
    AfterAfter(book.calls, now - HOUR, now - MINUTE);
    var kept := book.(calls := After(book.calls, now - HOUR));
    SameWindows(limits, kept, book, now);
    FullAllow(limits, kept, now);
  }

  lemma FullAllow(limits: Limits, book: Book, now: Time)
    ensures FullStep(limits, book, Allow(now))
            == Book(book.calls + if Decide(limits, book, now).Admitted? then [now] else [], book.blockedUntil)
  {
    assert book.calls + [] == book.calls;
  }

  lemma StepRepresents(limits: Limits, pruned: Book, full: Book, cutoff: Time, last: Time, now: Time)
    requires Represents(pruned, full, cutoff, last) && last <= now
    ensures var p, f := PrunedStep(limits, pruned, Allow(now)), FullStep(limits, full, Allow(now));
            Represents(p, f, cutoff, now) || Represents(p, f, now - HOUR, now)
  {
    SameDecision(limits, pruned, full, cutoff, last, now);
    if pruned.blockedUntil <= now {
      PrunedAllow(limits, pruned, now);
      AfterAfter(full.calls, cutoff, now - HOUR);
      AfterAppend(full.calls, now - HOUR, now);
      assert Represents(PrunedStep(limits, pruned, Allow(now)), FullStep(limits, full, Allow(now)), now - HOUR, now);
    }
  }

  lemma {:induction false} PrunedRunAgrees(limits: Limits, pruned: Book, full: Book, cutoff: Time, last: Time,
          es: seq<Event>)
    requires Represents(pruned, full, cutoff, last) && Monotone(es, last)
    ensures PrunedVerdicts(limits, pruned, es) == FullVerdicts(limits, full, es)
    decreases |es|
  {
    if es == [] {
    } else {
      var p, f := PrunedStep(limits, pruned, es[0]), FullStep(limits, full, es[0]);
      match es[0]
      case CoolDown(until) =>
        PrunedRunAgrees(limits, p, f, cutoff, last, es[1..]);
      case Allow(now) =>
        SameDecision(limits, pruned, full, cutoff, last, now);
        StepRepresents(limits, pruned, full, cutoff, last, now);
        var c := if Represents(p, f, cutoff, now) then cutoff else now - HOUR;
        PrunedRunAgrees(limits, p, f, c, now, es[1..]);
    }
  }

  /** Over every monotone run with any interleaved cooldowns, the list pruned
      in place gives exactly the answers, retryAfter included, that the
      complete history would give. */
  lemma PruningIsExact(limits: Limits, es: seq<Event>, start: Time)
    requires Monotone(es, start)
    ensures PrunedVerdicts(limits, EMPTY, es) == FullVerdicts(limits, EMPTY, es)
  {
    PrunedRunAgrees(limits, EMPTY, EMPTY, start - HOUR, start, es);
  }

  lemma {:induction false} RunRepresents(limits: Limits, pruned: Book, full: Book, cutoff: Time, last: Time,
          es: seq<Event>)
    returns (c: Time)
    requires Represents(pruned, full, cutoff, last) && Monotone(es, last)
    ensures Represents(PrunedRun(limits, pruned, es), FullRun(limits, full, es), c, LastAllow(es, last))
    decreases |es|
  {
    if es == [] { return cutoff; }
    var p, f := PrunedStep(limits, pruned, es[0]), FullStep(limits, full, es[0]);
    if es[0].CoolDown? {
      c := RunRepresents(limits, p, f, cutoff, last, es[1..]);
    } else {
      StepRepresents(limits, pruned, full, cutoff, last, es[0].now);
      c := RunRepresents(limits, p, f, if Represents(p, f, cutoff, es[0].now) then cutoff
          else es[0].now - HOUR, es[0].now, es[1..]);
    }
  }

  lemma RunTwo(limits: Limits, book: Book, a: Event, b: Event)
    ensures PrunedRun(limits, book, [a, b]) == PrunedStep(limits, PrunedStep(limits, book, a), b)
    ensures FullRun(limits, book, [a, b]) == FullStep(limits, FullStep(limits, book, a), b)
  {
    assert [a, b][1..] == [b] && [b][1..] == [];
    var p, f := PrunedStep(limits, book, a), FullStep(limits, book, a);
    assert PrunedRun(limits, p, [b]) == PrunedStep(limits, p, b);
    assert FullRun(limits, f, [b]) == FullStep(limits, f, b);
  }

  /** Monotone times are needed, by the nanosecond: after pruning at one
      hour, a call whose clock reading is 1ns older is let through although
      the history says no. */
  lemma PruningNeedsMonotoneTimes(limits: Limits, t: Time)
    requires limits == Limits(0, 2) && 0 <= t
    ensures var es := [Allow(t), Allow(t + HOUR)];
            && Decide(limits, PrunedRun(limits, EMPTY, es), t + HOUR - 1).Admitted?
            && Decide(limits, FullRun(limits, EMPTY, es), t + HOUR - 1).Refused?
  {
    RunTwo(limits, EMPTY, Allow(t), Allow(t + HOUR));
    FirstCall(limits, t);
    CallAfterAnHour(limits, t);
    OneInHour(limits, t);
    BothInHour(limits, t);
  }

  lemma FirstCall(limits: Limits, t: Time)
    requires limits == Limits(0, 2) && 0 <= t
    ensures PrunedStep(limits, EMPTY, Allow(t)) == FullStep(limits, EMPTY, Allow(t)) == Book([t], 0)
    ensures Admission(limits, EMPTY, Allow(t)) == [t]
  {
    CallWithRoom(limits, EMPTY, t, []);
    FullAllow(limits, EMPTY, t);
    assert [] + [t] == [t];
  }

  lemma CallAfterAnHour(limits: Limits, t: Time)
    requires limits == Limits(0, 2) && 0 <= t
    ensures PrunedStep(limits, Book([t], 0), Allow(t + HOUR)) == Book([t + HOUR], 0)
    ensures FullStep(limits, Book([t], 0), Allow(t + HOUR)) == Book([t, t + HOUR], 0)
  {
    AllOld([t], t);
    CallWithRoom(limits, Book([t], 0), t + HOUR, []);
    FullAllow(limits, Book([t], 0), t + HOUR);
    assert [] + [t + HOUR] == [t + HOUR] && [t] + [t + HOUR] == [t, t + HOUR];
  }

  lemma OneInHour(limits: Limits, t: Time)
    requires limits == Limits(0, 2) && 0 <= t
    ensures After([t + HOUR], t - 1) == [t + HOUR]
    ensures Decide(limits, Book([t + HOUR], 0), t + HOUR - 1).Admitted?
  {
    AfterAppend([], t - 1, t + HOUR);
    assert [] + [t + HOUR] == [t + HOUR];
  }

  lemma BothInHour(limits: Limits, t: Time)
    requires limits == Limits(0, 2) && 0 <= t
    ensures Decide(limits, Book([t, t + HOUR], 0), t + HOUR - 1).Refused?
  {
    AfterAppend([], t - 1, t);
    AfterAppend([t], t - 1, t + HOUR);
    assert [] + [t] == [t] && [t] + [t + HOUR] == [t, t + HOUR];
  }

  /** A call that finds `kept`, fewer than two, in its hour. */
  lemma CallWithRoom(limits: Limits, book: Book, now: Time, kept: seq<Time>)
    requires limits == Limits(0, 2) && book.blockedUntil == 0 <= now && After(book.calls, now - HOUR) == kept
    requires |kept| < 2
    ensures Admission(limits, book, Allow(now)) == [now]
    ensures PrunedStep(limits, book, Allow(now)) == Book(kept + [now], 0)
  {
    PrunedAllow(limits, book, now);
  }

  /** A late cutoff before an early one is the late one. */
  lemma {:induction false} AfterEarlier(calls: seq<Time>, early: Time, late: Time)
    requires early <= late
    ensures After(After(calls, late), early) == After(calls, late)
  {
    if calls == [] {
    } else {
      AfterEarlier(calls[..|calls| - 1], early, late);
      if calls[|calls| - 1] > late {
        var kept := After(calls, late);
        assert kept[..|kept| - 1] == After(calls[..|calls| - 1], late);
      }
    }
  }

  /** A list pruned at `cutoff` answers a reading that comes late, after a
      prune its own hour window does not cover, as the history would, under
      every limits, exactly when that prune dropped nothing from the late
      reading's hour. */
  lemma LateBookIsExactIff(full: Book, cutoff: Time, now: Time)
    requires full.blockedUntil <= now && now - HOUR <= cutoff
    ensures (forall limits ::
            Decide(limits, full.(calls := After(full.calls, cutoff)), now) == Decide(limits, full, now))
            <==> After(full.calls, now - HOUR) == After(full.calls, cutoff)
  {
    var pruned := full.(calls := After(full.calls, cutoff));
    var inHour := After(full.calls, now - HOUR);
    AfterAfter(full.calls, now - HOUR, cutoff);
    AfterEarlier(full.calls, now - HOUR, cutoff);
    if inHour == pruned.calls {
      AfterAfter(full.calls, now - HOUR, now - MINUTE);
      forall limits ensures Decide(limits, pruned, now)
          == Decide(limits, full, now) { SameWindows(limits, pruned, full, now); }
    } else {
      AfterIsAll(inHour, cutoff);
      var limits := Limits(0, |inHour|);
      assert Decide(limits, full, now).Refused? && Decide(limits, pruned, now).Admitted?;
    }
  }

  /** After any monotone run the pruned list answers a reading that comes
      late as the history would, under every limits, if and only if a cooldown
      is on then or the list still holds all the history's calls of the late
      reading's hour. */
  lemma LateReadingIsExactIff(limits: Limits, es: seq<Event>, start: Time, now: Time)
    requires Monotone(es, start)
    ensures var pruned, full := PrunedRun(limits, EMPTY, es), FullRun(limits, EMPTY, es);
            (forall any :: Decide(any, pruned, now) == Decide(any, full, now))
            <==> now < full.blockedUntil || After(pruned.calls, now - HOUR) == After(full.calls, now - HOUR)
  {
    var pruned, full := PrunedRun(limits, EMPTY, es), FullRun(limits, EMPTY, es);
    var cutoff := RunRepresents(limits, EMPTY, EMPTY, start - HOUR, start, es);
    PrunedIsExactIff(pruned, full, cutoff, now);
  }

  lemma PrunedIsExactIff(pruned: Book, full: Book, cutoff: Time, now: Time)
    requires pruned.blockedUntil == full.blockedUntil && pruned.calls == After(full.calls, cutoff)
    ensures (forall any :: Decide(any, pruned, now) == Decide(any, full, now))
            <==> now < full.blockedUntil || After(pruned.calls, now - HOUR) == After(full.calls, now - HOUR)
  {
    if full.blockedUntil <= now {
      if now - HOUR <= cutoff {
        AfterEarlier(full.calls, now - HOUR, cutoff);
        assert pruned == full.(calls := After(full.calls, cutoff));
        LateBookIsExactIff(full, cutoff, now);
      } else {
        SameDecisionOnTime(pruned, full, cutoff, now);
      }
    }
  }

  lemma SameDecisionOnTime(pruned: Book, full: Book, cutoff: Time, now: Time)
    requires pruned.blockedUntil == full.blockedUntil && pruned.calls == After(full.calls, cutoff)
    requires cutoff <= now - HOUR
    ensures After(pruned.calls, now - HOUR) == After(full.calls, now - HOUR)
    ensures forall any :: Decide(any, pruned, now) == Decide(any, full, now)
  {
    AfterAfter(full.calls, cutoff, now - HOUR);
    AfterAfter(full.calls, cutoff, now - MINUTE);
    forall any ensures Decide(any, pruned, now) == Decide(any, full, now) { SameWindows(any, pruned, full, now); }
  }

  /** A prune that drops something leaves fewer calls. */
  lemma {:induction false} AfterIsAll(calls: seq<Time>, cutoff: Time)
    ensures |After(calls, cutoff)| == |calls| ==> After(calls, cutoff) == calls
  {
    if calls == [] {
    } else {
      AfterIsAll(calls[..|calls| - 1], cutoff);
      assert calls == calls[..|calls| - 1] + [calls[|calls| - 1]];
    }
  }

  /** One more event at the end of a run. */
  lemma {:induction false} RunAppend(limits: Limits, book: Book, es: seq<Event>, e: Event)
    ensures PrunedRun(limits, book, es + [e]) == PrunedStep(limits, PrunedRun(limits, book, es), e)
    decreases |es|
  {
    var all := es + [e];
    if es == [] {
      assert all[1..] == [];
    } else {
      assert all[1..] == es[1..] + [e];
      RunAppend(limits, PrunedStep(limits, book, es[0]), es[1..], e);
    }
  }

  lemma {:induction false} AdmissionsAppend(limits: Limits, book: Book, es: seq<Event>, e: Event)
    ensures Admissions(limits, book, es + [e]) == Admissions(limits, book, es) + Admission(limits,
            PrunedRun(limits, book, es), e)
    decreases |es|
  {
    var all := es + [e];
    if es == [] {
      assert all[1..] == [];
      AdmissionsUnfold(limits, book, all);
    } else {
      assert all[1..] == es[1..] + [e];
      AdmissionsAppend(limits, PrunedStep(limits, book, es[0]), es[1..], e);
      AdmissionsUnfold(limits, book, es);
      AdmissionsUnfold(limits, book, all);
    }
  }

  lemma AdmissionsUnfold(limits: Limits, book: Book, es: seq<Event>)
    requires es != []
    ensures Admissions(limits, book, es) == Admission(limits, book, es[0]) + Admissions(limits,
            PrunedStep(limits, book, es[0]), es[1..])
    ensures PrunedRun(limits, book, es) == PrunedRun(limits, PrunedStep(limits, book, es[0]), es[1..])
  {}

  /** Limits other than 1 let a first and a second call through. */
  lemma TwoCallsFit(limits: Limits, a: Time, b: Time)
    requires limits.perMinute != 1 && limits.perHour != 1 && 0 <= a <= b
    ensures Decide(limits, EMPTY, a).Admitted?
    ensures Decide(limits, PrunedStep(limits, EMPTY, Allow(a)), b).Admitted?
  {
    AdmissionExact(limits, EMPTY, a, a);
    PrunedAllow(limits, EMPTY, a);
    assert [] + [a] == [a];
    AdmissionExact(limits, Book([a], 0), b, a);
  }

  // ------------------------------------------------------- the budgets hold

  lemma AppendKeepsSpacing(calls: seq<Time>, limit: int, window: Duration, now: Time)
    requires Spaced(calls, limit, window) && Room(calls, limit, window, now)
    ensures Spaced(calls + [now], limit, window)
  {
    if limit > 0 {
      var next := calls + [now];
      forall i: nat | i < |next| - limit ensures SpacedAt(next, limit, window, i) {
        assert i < |calls| - limit ==> SpacedAt(calls, limit, window, i);
      }
    }
  }

  lemma StepKeepsSpacing(limits: Limits, book: Book, now: Time, last: Time)
    requires Ascending(book.calls, last) && last <= now
    requires Spaced(book.calls, limits.perMinute, MINUTE) && Spaced(book.calls, limits.perHour, HOUR)
    ensures var next := FullStep(limits, book, Allow(now)).calls;
            && Ascending(next, now)
            && Spaced(next, limits.perMinute, MINUTE) && Spaced(next, limits.perHour, HOUR)
  {
    AdmissionExact(limits, book, now, last);
    if Decide(limits, book, now).Admitted? {
      AppendKeepsSpacing(book.calls, limits.perMinute, MINUTE, now);
      AppendKeepsSpacing(book.calls, limits.perHour, HOUR, now);
    }
  }

  /** No run of calls, however interleaved with cooldowns, puts more than
      perMinute admissions into any minute or more than perHour into any hour. */
  lemma {:induction false} BudgetsHold(limits: Limits, book: Book, last: Time, es: seq<Event>)
    requires Ascending(book.calls, last) && Monotone(es, last)
    requires Spaced(book.calls, limits.perMinute, MINUTE) && Spaced(book.calls, limits.perHour, HOUR)
    ensures var h := FullRun(limits, book, es).calls;
            && Spaced(h, limits.perMinute, MINUTE) && Spaced(h, limits.perHour, HOUR)
            && Ascending(h, LastAllow(es, last))
    decreases |es|
  {
    if es == [] {
    } else {
      if es[0].Allow? { StepKeepsSpacing(limits, book, es[0].now, last); }
      BudgetsHold(limits, FullStep(limits, book, es[0]), if es[0].Allow? then es[0].now else last, es[1..]);
    }
  }

  /** One event adds its admission to the history. */
  lemma StepAdmits(limits: Limits, pruned: Book, full: Book, cutoff: Time, last: Time, e: Event)
    requires Represents(pruned, full, cutoff, last) && (e.Allow? ==> last <= e.now)
    ensures FullStep(limits, full, e).calls == full.calls + Admission(limits, pruned, e)
  {
    if e.Allow? {
      SameDecision(limits, pruned, full, cutoff, last, e.now);
      FullAllow(limits, full, e.now);
    }
  }

  lemma Regroup(a: seq<Time>, b: seq<Time>, c: seq<Time>)
    ensures (a + b) + c == a + (b + c)
  {}

  lemma {:induction false} AdmissionsAreTheHistory(limits: Limits, pruned: Book, full: Book, cutoff: Time, last: Time,
          es: seq<Event>)
    requires Represents(pruned, full, cutoff, last) && Monotone(es, last)
    ensures FullRun(limits, full, es).calls == full.calls + Admissions(limits, pruned, es)
    decreases |es|
  {
    if es == [] {
      assert full.calls + [] == full.calls;
    } else {
      var p, f := PrunedStep(limits, pruned, es[0]), FullStep(limits, full, es[0]);
      var now := if es[0].Allow? then es[0].now else last;
      var c := cutoff;
      if es[0].Allow? {
        StepRepresents(limits, pruned, full, cutoff, last, now);
        c := if Represents(p, f, cutoff, now) then cutoff else now - HOUR;
      }
      StepAdmits(limits, pruned, full, cutoff, last, es[0]);
      AdmissionsAreTheHistory(limits, p, f, c, now, es[1..]);
      AdmissionsUnfold(limits, pruned, es);
      Regroup(full.calls, Admission(limits, pruned, es[0]), Admissions(limits, p, es[1..]));
    }
  }

  /** What the service admits keeps both budgets. */
  lemma AdmissionsKeepBudgets(limits: Limits, es: seq<Event>, start: Time)
    requires Monotone(es, start)
    ensures Spaced(Admissions(limits, EMPTY, es), limits.perMinute, MINUTE)
    ensures Spaced(Admissions(limits, EMPTY, es), limits.perHour, HOUR)
  {
    AdmissionsAreTheHistory(limits, EMPTY, EMPTY, start - HOUR, start, es);
    BudgetsHold(limits, EMPTY, start, es);
    assert [] + Admissions(limits, EMPTY, es) == Admissions(limits, EMPTY, es);
  }

  // ------------------------------------------------- readings out of order

  function Later(a: Time, b: Time): Time {
    if a > b then a else b
  }

  /** No Allow reads the clock more than `d` before the newest reading so far. */
  predicate NearlyMonotone(es: seq<Event>, newest: Time, d: Duration)
    decreases |es|
  {
    es == [] || (if es[0].Allow? then newest - d <= es[0].now && NearlyMonotone(es[1..], Later(newest, es[0].now), d)
                 else NearlyMonotone(es[1..], newest, d))
  }

  /** Before each call, among the `limit` calls just before it, is one at
      least a window older. */
  predicate Spread(calls: seq<Time>, limit: int, window: Duration) {
    limit > 0 ==> forall j: nat | limit <= j < |calls| :: SpreadAt(calls, limit, window, j)
  }

  predicate SpreadAt(calls: seq<Time>, limit: nat, window: Duration, j: nat)
    requires limit <= j < |calls|
  {
    exists m :: j - limit <= m < j && calls[m] + window <= calls[j]
  }

  /** A list with fewer than n calls after the cutoff has an old one among any
      n at its end. */
  lemma {:induction false} OldOneAmong(calls: seq<Time>, cutoff: Time, n: nat) returns (m: nat)
    requires |After(calls, cutoff)| < n <= |calls|
    ensures |calls| - n <= m < |calls| && calls[m] <= cutoff
    decreases n
  {
    var last := |calls| - 1;
    if calls[last] <= cutoff { return last; }
    m := OldOneAmong(calls[..last], cutoff, n - 1);
  }

  lemma SpreadAppend(calls: seq<Time>, limit: int, window: Duration, cutoff: Time, now: Time)
    requires Spread(calls, limit, window) && cutoff + window <= now
    requires limit > 0 ==> |After(calls, cutoff)| < limit
    ensures Spread(calls + [now], limit, window)
  {
    var next := calls + [now];
    if 0 < limit <= |calls| {
      var m := OldOneAmong(calls, cutoff, limit);
      assert next[m] + window <= next[|calls|];
    }
    forall j: nat | 0 < limit <= j < |next| ensures SpreadAt(next, limit, window, j) {
      if j < |calls| {
        assert SpreadAt(calls, limit, window, j);
        var m :| j - limit <= m < j && calls[m] + window <= calls[j];
        assert next[m] + window <= next[j];
      }
    }
  }

  /** The list has all the admissions of the newest reading's hour. */
  predicate Tracks(pruned: seq<Time>, admitted: seq<Time>, newest: Time) {
    After(pruned, newest - HOUR) == After(admitted, newest - HOUR)
  }

  lemma TracksLater(pruned: seq<Time>, admitted: seq<Time>, newest: Time, now: Time)
    requires Tracks(pruned, admitted, newest)
    ensures Tracks(After(pruned, now - HOUR), admitted, Later(newest, now))
    ensures newest - HOUR <= now - MINUTE ==> After(pruned, now - MINUTE) == After(admitted, now - MINUTE)
  {
    var newer := Later(newest, now) - HOUR;
    AfterAfter(pruned, newest - HOUR, newer);
    AfterAfter(admitted, newest - HOUR, newer);
    AfterAfter(pruned, now - HOUR, newer);
    if newest - HOUR <= now - MINUTE {
      AfterAfter(pruned, newest - HOUR, now - MINUTE);
      AfterAfter(admitted, newest - HOUR, now - MINUTE);
    }
  }

  /** The budgets as readings that come at most d late can keep them. */
  predicate NearlyKept(limits: Limits, admitted: seq<Time>, d: Duration) {
    Spread(admitted, limits.perHour, HOUR - d) && (d <= HOUR - MINUTE ==> Spread(admitted, limits.perMinute, MINUTE))
  }

  lemma LateAdmission(limits: Limits, book: Book, admitted: seq<Time>, newest: Time, now: Time, d: Duration)
    requires 0 <= d && newest - d <= now && Tracks(book.calls, admitted, newest) && Decide(limits, book, now).Admitted?
    requires NearlyKept(limits, admitted, d)
    ensures NearlyKept(limits, admitted + [now], d)
    ensures Tracks(After(book.calls, now - HOUR) + [now], admitted + [now], Later(newest, now))
  {
    var newer := Later(newest, now) - HOUR;
    var inHour := After(book.calls, now - HOUR);
    TracksLater(book.calls, admitted, newest, now);
    SpreadAppend(admitted, limits.perHour, HOUR - d, newer, now);
    if d <= HOUR - MINUTE { SpreadAppend(admitted, limits.perMinute, MINUTE, now - MINUTE, now); }
    AfterAppend(inHour, newer, now);
    AfterAppend(admitted, newer, now);
  }

  lemma LateAllow(limits: Limits, book: Book, admitted: seq<Time>, newest: Time, now: Time, d: Duration)
    requires 0 <= d && newest - d <= now && Tracks(book.calls, admitted, newest) && NearlyKept(limits, admitted, d)
    ensures Tracks(PrunedStep(limits, book, Allow(now)).calls, admitted + Admission(limits, book, Allow(now)),
            Later(newest, now))
    ensures NearlyKept(limits, admitted + Admission(limits, book, Allow(now)), d)
  {
    assert admitted + [] == admitted;
    if now < book.blockedUntil {
      AfterAfter(book.calls, newest - HOUR, Later(newest, now) - HOUR);
      AfterAfter(admitted, newest - HOUR, Later(newest, now) - HOUR);
    } else {
      PrunedAllow(limits, book, now);
      if Decide(limits, book, now).Admitted? {
        LateAdmission(limits, book, admitted, newest, now, d);
      } else {
        TracksLater(book.calls, admitted, newest, now);
        assert After(book.calls, now - HOUR) + [] == After(book.calls, now - HOUR);
      }
    }
  }

  lemma {:induction false} NearlyInOrder(limits: Limits, book: Book, admitted: seq<Time>, newest: Time, es: seq<Event>,
          d: Duration)
    requires 0 <= d && NearlyMonotone(es, newest, d) && Tracks(book.calls, admitted, newest)
    requires NearlyKept(limits, admitted, d)
    ensures NearlyKept(limits, admitted + Admissions(limits, book, es), d)
    decreases |es|
  {
    if es == [] {
      assert admitted + [] == admitted;
    } else {
      var next := PrunedStep(limits, book, es[0]);
      var first := Admission(limits, book, es[0]);
      if es[0].Allow? {
        LateAllow(limits, book, admitted, newest, es[0].now, d);
        NearlyInOrder(limits, next, admitted + first, Later(newest, es[0].now), es[1..], d);
      } else {
        assert admitted + first == admitted;
        NearlyInOrder(limits, next, admitted + first, newest, es[1..], d);
      }
      AdmissionsUnfold(limits, book, es);
      Regroup(admitted, first, Admissions(limits, next, es[1..]));
    }
  }

  /** What holds of readings in any order that come at most d late: any
      perHour + 1 admissions in a row span at least an hour less d, and any
      perMinute + 1 a whole minute if d is at most 59 minutes. */
  lemma LateAdmissionsSpread(limits: Limits, es: seq<Event>, start: Time, d: Duration)
    requires 0 <= d && NearlyMonotone(es, start, d)
    ensures Spread(Admissions(limits, EMPTY, es), limits.perHour, HOUR - d)
    ensures d <= HOUR - MINUTE ==> Spread(Admissions(limits, EMPTY, es), limits.perMinute, MINUTE)
  {
    NearlyInOrder(limits, EMPTY, [], start, es, d);
    assert [] + Admissions(limits, EMPTY, es) == Admissions(limits, EMPTY, es);
  }

  /** The loss of d is real: with a reading 1ns late three calls of an hour
      budget of two fall into one hour. */
  lemma LateReadingBreaksBudget(limits: Limits, t: Time) returns (es: seq<Event>)
    requires limits == Limits(0, 2) && 0 <= t
    ensures NearlyMonotone(es, t, 1)
    ensures Admissions(limits, EMPTY, es) == [t, t, t + HOUR, t + HOUR - 1]
    ensures !Spread([t, t, t + HOUR, t + HOUR - 1], 2, HOUR)
  {
    es := [Allow(t), Allow(t), Allow(t + HOUR), Allow(t + HOUR - 1)];
    OneNanosecondLate(t, es);
    FourAdmissions(limits, t, es);
    assert !SpreadAt([t, t, t + HOUR, t + HOUR - 1], 2, HOUR, 3);
  }

  lemma OneNanosecondLate(t: Time, es: seq<Event>)
    requires es == [Allow(t), Allow(t), Allow(t + HOUR), Allow(t + HOUR - 1)]
    ensures NearlyMonotone(es, t, 1)
  {
    assert NearlyMonotone(es[1..][1..][1..], t + HOUR, 1);
    assert NearlyMonotone(es[1..][1..], t, 1);
    assert NearlyMonotone(es[1..], t, 1);
  }

  /** An admitted call in front of a run. */
  lemma AdmissionsCons(limits: Limits, book: Book, es: seq<Event>, next: Book, rest: seq<Time>)
    requires es != [] && es[0].Allow? && Admission(limits, book, es[0]) == [es[0].now]
    requires PrunedStep(limits, book, es[0]) == next
    requires Admissions(limits, next, es[1..]) == rest
    ensures Admissions(limits, book, es) == [es[0].now] + rest
  {
    AdmissionsUnfold(limits, book, es);
  }

  lemma FourAdmissions(limits: Limits, t: Time, es: seq<Event>)
    requires limits == Limits(0, 2) && 0 <= t
    requires es == [Allow(t), Allow(t), Allow(t + HOUR), Allow(t + HOUR - 1)]
    ensures Admissions(limits, EMPTY, es) == [t, t, t + HOUR, t + HOUR - 1]
  {
    var b1, b2, b3 := Book([t], 0), Book([t, t], 0), Book([t + HOUR], 0);
    FirstCall(limits, t);
    SecondCall(limits, t);
    ThirdCall(limits, t);
    OneInHour(limits, t);
    var r1 := es[1..];
    var r2 := r1[1..];
    var r3 := r2[1..];
    AdmissionsCons(limits, b3, r3, PrunedStep(limits, b3, r3[0]), []);
    AdmissionsCons(limits, b2, r2, b3, [t + HOUR - 1]);
    AdmissionsCons(limits, b1, r1, b2, [t + HOUR, t + HOUR - 1]);
    AdmissionsCons(limits, EMPTY, es, b1, [t, t + HOUR, t + HOUR - 1]);
  }

  lemma SecondCall(limits: Limits, t: Time)
    requires limits == Limits(0, 2) && 0 <= t
    ensures Admission(limits, Book([t], 0), Allow(t)) == [t]
    ensures PrunedStep(limits, Book([t], 0), Allow(t)) == Book([t, t], 0)
  {
    AfterAppend([], t - HOUR, t);
    assert [] + [t] == [t] && [t] + [t] == [t, t];
    CallWithRoom(limits, Book([t], 0), t, [t]);
  }

  lemma ThirdCall(limits: Limits, t: Time)
    requires limits == Limits(0, 2) && 0 <= t
    ensures Admission(limits, Book([t, t], 0), Allow(t + HOUR)) == [t + HOUR]
    ensures PrunedStep(limits, Book([t, t], 0), Allow(t + HOUR)) == Book([t + HOUR], 0)
  {
    AllOld([t, t], t);
    assert [] + [t + HOUR] == [t + HOUR];
    CallWithRoom(limits, Book([t, t], 0), t + HOUR, []);
  }

  // ---------------------------------------------------------- refusal hints

  /** Why a refusal at `now` with hint `r` lasts until now + r. */
  predicate RefusalHolds(limits: Limits, book: Book, until: Time) {
    || until <= book.blockedUntil
    || (limits.perHour > 0 && |book.calls| >= limits.perHour
        && until <= book.calls[|book.calls| - limits.perHour] + HOUR)
    || (limits.perMinute > 0 && |book.calls| >= limits.perMinute
        && until <= book.calls[|book.calls| - limits.perMinute] + MINUTE)
  }

  /** In a spaced history a full window holds exactly its limit, and starts
      at the entry `limit` places from the end. */
  lemma NeverOverfull(calls: seq<Time>, limit: int, window: Duration, now: Time, last: Time)
    requires Ascending(calls, last) && last <= now && Spaced(calls, limit, window)
    ensures var inside := After(calls, now - window);
            limit > 0 && |inside| >= limit ==>
              && |calls| >= limit && |inside| == limit
              && inside[0] == calls[|calls| - limit] && inside[0] > now - window
  {
    AfterIsSuffix(calls, now - window, last);
    var k := |calls| - |After(calls, now - window)|;
    assert limit > 0 && k + limit < |calls| ==> SpacedAt(calls, limit, window, k);
  }

  /** The hint, read off the history: the end of the cooldown, or the moment
      the entry perHour or perMinute places from the end leaves its window. */
  lemma HintIs(limits: Limits, book: Book, now: Time, last: Time)
    requires Ascending(book.calls, last) && last <= now
    requires Spaced(book.calls, limits.perMinute, MINUTE) && Spaced(book.calls, limits.perHour, HOUR)
    requires Decide(limits, book, now).Refused?
    ensures var later := now + Decide(limits, book, now).retryAfter;
            && now < later
            && (if now < book.blockedUntil then later == book.blockedUntil
                else if !Room(book.calls, limits.perHour, HOUR, now) then
                  later == book.calls[|book.calls| - limits.perHour] + HOUR
                else
                  && !Room(book.calls, limits.perMinute, MINUTE, now)
                  && later == book.calls[|book.calls| - limits.perMinute] + MINUTE)
  {
    WindowFull(book.calls, limits.perHour, HOUR, now, last);
    WindowFull(book.calls, limits.perMinute, MINUTE, now, last);
    NeverOverfull(book.calls, limits.perHour, HOUR, now, last);
    NeverOverfull(book.calls, limits.perMinute, MINUTE, now, last);
  }

  predicate AllBefore(es: seq<Event>, until: Time) {
    forall i | 0 <= i < |es| && es[i].Allow? :: es[i].now < until
  }

  lemma {:induction false} RefusalPersists(limits: Limits, book: Book, last: Time, until: Time, es: seq<Event>)
    requires Ascending(book.calls, last) && Monotone(es, last)
    requires RefusalHolds(limits, book, until) && AllBefore(es, until)
    ensures FullRun(limits, book, es).calls == book.calls
    ensures forall i | 0 <= i < |FullVerdicts(limits, book, es)| :: FullVerdicts(limits, book, es)[i].Refused?
    decreases |es|
  {
    if es == [] {
    } else {
      var next := FullStep(limits, book, es[0]);
      if es[0].Allow? {
        assert es[0].now < until;
        AdmissionExact(limits, book, es[0].now, last);
        assert next == book;
      }
      assert AllBefore(es[1..], until) by {
        forall i | 0 <= i < |es[1..]|
            && es[1..][i].Allow? ensures es[1..][i].now < until { assert es[1..][i] == es[i + 1]; }
      }
      RefusalPersists(limits, next, if es[0].Allow? then es[0].now else last, until, es[1..]);
    }
  }

  /** A refusal at `now` promises r > 0 of silence, and keeps the promise:
      whatever cooldowns and calls follow, no call before now + r is let in. */
  lemma HintIsSound(limits: Limits, book: Book, now: Time, last: Time, later: seq<Event>)
    requires Ascending(book.calls, last) && last <= now
    requires Spaced(book.calls, limits.perMinute, MINUTE) && Spaced(book.calls, limits.perHour, HOUR)
    requires Decide(limits, book, now).Refused?
    requires Monotone(later, now) && AllBefore(later, now + Decide(limits, book, now).retryAfter)
    ensures Decide(limits, book, now).retryAfter > 0
    ensures forall i | 0 <= i < |FullVerdicts(limits, book, later)| :: FullVerdicts(limits, book, later)[i].Refused?
  {
    HintIs(limits, book, now, last);
    RefusalPersists(limits, book, now, now + Decide(limits, book, now).retryAfter, later);
  }

  /** The same promise, made by the service: after any monotone run, a
      refusal from the pruned list with hint r is followed by nothing but
      refusals until now + r. */
  lemma ServiceHintIsSound(limits: Limits, start: Time, before: seq<Event>, now: Time, later: seq<Event>)
    requires Monotone(before, start) && LastAllow(before, start) <= now
    requires Decide(limits, PrunedRun(limits, EMPTY, before), now).Refused?
    requires Monotone(later, now)
    requires AllBefore(later, now + Decide(limits, PrunedRun(limits, EMPTY, before), now).retryAfter)
    ensures Decide(limits, PrunedRun(limits, EMPTY, before), now).retryAfter > 0
    ensures var answers := PrunedVerdicts(limits, PrunedStep(limits, PrunedRun(limits, EMPTY, before), Allow(now)),
            later);
            forall i | 0 <= i < |answers| :: answers[i].Refused?
  {
    var pruned, full := PrunedRun(limits, EMPTY, before), FullRun(limits, EMPTY, before);
    var last := LastAllow(before, start);
    var c := RunRepresents(limits, EMPTY, EMPTY, start - HOUR, start, before);
    BudgetsHold(limits, EMPTY, start, before);
    SameDecision(limits, pruned, full, c, last, now);
    HintIsSound(limits, full, now, last, later);
    StepRepresents(limits, pruned, full, c, last, now);
    var p := PrunedStep(limits, pruned, Allow(now));
    PrunedRunAgrees(limits, p, full, if Represents(p, full, c, now) then c else now - HOUR, now, later);
  }

  /** When is the hint tight, so that with no new cooldown the call at
      now + r is admitted? After a minute refusal always; after an hour refusal
      exactly when the minute window has room by then; after a cooldown
      exactly when both windows do. */
  lemma HintIsTight(limits: Limits, book: Book, now: Time, last: Time)
    requires Ascending(book.calls, last) && last <= now
    requires Spaced(book.calls, limits.perMinute, MINUTE) && Spaced(book.calls, limits.perHour, HOUR)
    requires Decide(limits, book, now).Refused?
    ensures var later := now + Decide(limits, book, now).retryAfter;
            var admitted := Decide(limits, book, later).Admitted?;
            var hourRoom := Room(book.calls, limits.perHour, HOUR, now);
            && (book.blockedUntil <= now && hourRoom ==> admitted)
            && (book.blockedUntil <= now && !hourRoom ==>
                  (admitted <==> Room(book.calls, limits.perMinute, MINUTE, later)))
            && (now < book.blockedUntil ==>
                  (admitted <==>
                     && Room(book.calls, limits.perHour, HOUR, later)
                     && Room(book.calls, limits.perMinute, MINUTE, later)))
  {
    HintIs(limits, book, now, last);
    AdmissionExact(limits, book, now + Decide(limits, book, now).retryAfter, last);
  }

  /** An hour refusal's hint can fall short: the minute is still full then. */
  lemma HourHintCanFallShort()
    ensures var limits, book := Limits(1, 2), Book([0, HOUR - 1], 0);
            && Decide(limits, book, HOUR - 1) == Refused(1)
            && Decide(limits, book, HOUR).Refused?
  {
    var calls := [0, HOUR - 1];
    assert calls[..1] == [0];
    assert After([0], -1) == [0] && After([0], 0) == [];
    assert After(calls, -1) == calls && After(calls, 0) == [HOUR - 1];
    assert After([0], HOUR - MINUTE) == [];
    assert After(calls, HOUR - MINUTE) == [HOUR - 1];
  }

  // -------------------------------------------------------- shared cooldown

  /** Once a Retry-After has blocked the limiter until `until`, no later
      event, in any order and from any pair, lets a call through before it. */
  lemma {:induction false} CooldownHolds(limits: Limits, book: Book, until: Time, es: seq<Event>)
    requires until <= book.blockedUntil
    ensures forall i | 0 <= i < |Admissions(limits, book, es)| :: until <= Admissions(limits, book, es)[i]
    decreases |es|
  {
    if es == [] {
    } else {
      CooldownHolds(limits, PrunedStep(limits, book, es[0]), until, es[1..]);
    }
  }
}

/** The limiter as the service runs it: one buffer, compacted in place. */
module RateLimiterObject {
  import opened Domain
  import opened RateLimiting

  /** What the pass knows after the first i calls. */
  ghost predicate Passed(calls: seq<Time>, i: nat, now: Time, kept: seq<Time>, inMinute: nat, oldest: Time)
    requires i <= |calls|
  {
    var minute := After(calls[..i], now - MINUTE);
    kept == After(calls[..i], now - HOUR) && inMinute == |minute| && (inMinute > 0 ==> oldest == minute[0])
  }

  lemma PassOne(calls: seq<Time>, i: nat, now: Time, kept: seq<Time>, inMinute: nat, oldest: Time)
    requires i < |calls| && Passed(calls, i, now, kept, inMinute, oldest)
    ensures var t := calls[i];
            if t <= now - HOUR then Passed(calls, i + 1, now, kept, inMinute, oldest)
            else if t <= now - MINUTE then Passed(calls, i + 1, now, kept + [t], inMinute, oldest)
            else Passed(calls, i + 1, now, kept + [t], inMinute + 1, if inMinute == 0 then t else oldest)
  {
    assert calls[..i + 1] == calls[..i] + [calls[i]];
    AfterAppend(calls[..i], now - HOUR, calls[i]);
    AfterAppend(calls[..i], now - MINUTE, calls[i]);
  }

  class RateLimiter {
    const limits: Limits
    var buffer: array<Time>
    var count: nat
    var blockedUntil: Time

    ghost predicate Valid()
      reads this
    {
      count <= buffer.Length
    }

    ghost function Value(): Book
      requires Valid()
      reads this, buffer
    {
      Book(buffer[..count], blockedUntil)
    }

    constructor (perMinute: int, perHour: int)
      ensures Valid() && Value() == EMPTY && limits == Limits(perMinute, perHour) && fresh(buffer)
    {
      limits := Limits(perMinute, perHour);
      buffer := new Time[0];
      count, blockedUntil := 0, ZERO_TIME;
    }

    method CoolDown(until: Time)
      requires Valid()
      modifies this`blockedUntil
      ensures Valid() && Value() == PrunedStep(limits, old(Value()), RateLimiting.CoolDown(until))
    {
      if until > blockedUntil {
        blockedUntil := until;
      }
    }

    /** One pass compacts the list and finds the minute window; then the
        verdict, and the call is recorded if it is admitted. */
    method Allow(now: Time) returns (ok: bool, retryAfter: Duration)
      requires Valid()
      modifies this, buffer
      ensures Valid() && (buffer == old(buffer) || fresh(buffer)) && blockedUntil == old(blockedUntil)
      ensures Value() == PrunedStep(limits, old(Value()), RateLimiting.Allow(now))
      ensures var verdict := Decide(limits, old(Value()), now);
              if verdict.Admitted? then ok && retryAfter == 0 else !ok && retryAfter == verdict.retryAfter
    {
      if now < blockedUntil {
        return false, blockedUntil - now;
      }
      ghost var calls := buffer[..count];
      var inMinute, oldestInMinute := Compact(now);
      PrunedAllow(limits, Book(calls, blockedUntil), now);
      if limits.perHour > 0 && count >= limits.perHour {
        return false, buffer[0] + HOUR - now;
      }
      if limits.perMinute > 0 && inMinute >= limits.perMinute {
        return false, oldestInMinute + MINUTE - now;
      }
      Append(now);
      return true, 0;
    }

    /** The one pass over the calls: drop what is an hour old, in place, and
        find how many calls are in the last minute and the oldest of them. */
    method Compact(now: Time) returns (inMinute: nat, oldestInMinute: Time)
      requires Valid()
      modifies this`count, buffer
      ensures Valid()
      ensures buffer[..count] == After(old(buffer[..count]), now - HOUR)
      ensures inMinute == |After(old(buffer[..count]), now - MINUTE)|
      ensures inMinute > 0 ==> oldestInMinute == After(old(buffer[..count]), now - MINUTE)[0]
    {
      ghost var calls := buffer[..count];
      var hourCutoff, minuteCutoff := now - HOUR, now - MINUTE;
      var kept, n := 0, count;
      inMinute, oldestInMinute := 0, ZERO_TIME;
      for i := 0 to n
        invariant n == count <= buffer.Length && 0 <= kept <= i
        invariant Passed(calls, i, now, buffer[..kept], inMinute, oldestInMinute)
        invariant forall j | i <= j < n :: buffer[j] == calls[j]
      {
        var t := buffer[i];
        PassOne(calls, i, now, buffer[..kept], inMinute, oldestInMinute);
        if t > hourCutoff {
          ghost var before := buffer[..kept];
          buffer[kept] := t;
          kept := kept + 1;
          assert buffer[..kept] == before + [t];
          if t > minuteCutoff {
            if inMinute == 0 {
              oldestInMinute := t;
            }
            inMinute := inMinute + 1;
          }
        }
      }
      assert calls[..n] == calls;
      count := kept;
    }

    /** Append to the buffer, moving to a larger one when it is full. */
    method Append(now: Time)
      requires Valid()
      modifies this`buffer, this`count, buffer
      ensures Valid() && (buffer == old(buffer) || fresh(buffer))
      ensures buffer[..count] == old(buffer[..count]) + [now]
    {
      if count == buffer.Length {
        var grown := new Time[2 * count + 1];
        forall i | 0 <= i < count { grown[i] := buffer[i]; }
        buffer := grown;
      }
      buffer[count] := now;
      count := count + 1;
    }
  }
}
