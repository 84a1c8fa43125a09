/** Which rows a claim takes: the combined "due OR stuck" selection, and the
    database's split of it into two limited selections and a third over both. */
module Claims {
  import opened Domain
  import opened Queue
  import opened Sets

  function Min(a: nat, b: nat): nat {
    if a < b then a else b
  }

  /** ORDER BY ... LIMIT k over `from`: k rows, none left out that comes
      before a chosen one. Rows the order does not separate may go either way. */
  ghost predicate TopK(chosen: set<Id>, from: set<Id>, k: nat, before: (Id, Id) -> bool) {
    && chosen <= from && |chosen| == Min(k, |from|)
    && forall x, y | x in chosen && y in from - chosen :: !before(y, x)
  }

  /** Ordering by a key alone. */
  ghost function ByKeyOnly(key: Id -> Time): (Id, Id) -> bool {
    (a, b) => key(a) < key(b)
  }

  /** Ordering by a key, ties broken by id. */
  ghost function ByKeyThenId(key: Id -> Time): (Id, Id) -> bool {
    (a, b) => key(a) < key(b) || (key(a) == key(b) && a < b)
  }

  /** "Not before" is transitive, as for any ORDER BY. */
  ghost predicate WeakOrder(before: (Id, Id) -> bool) {
    && (forall x, y, z :: !before(x, y) && !before(y, z) ==> !before(x, z))
    && (forall x, y :: before(x, y) ==> !before(y, x))
  }

  ghost predicate Separates(before: (Id, Id) -> bool) {
    forall x, y :: x == y || before(x, y) || before(y, x)
  }

  lemma KeysOrder(key: Id -> Time)
    ensures WeakOrder(ByKeyOnly(key)) && WeakOrder(ByKeyThenId(key)) && Separates(ByKeyThenId(key))
  {}

  /** The split claim: top-k of the due rows by `before`, top-k of the stuck
      rows by lock time, and top-k of those two together by `before`. */
  ghost predicate SplitClaim(chosen: set<Id>, due: set<Id>, stuck: set<Id>, pc: set<Id>, sc: set<Id>, k: nat,
                             before: (Id, Id) -> bool, lock: Id -> Time) {
    && TopK(pc, due, k, before)
    && TopK(sc, stuck, k, ByKeyOnly(lock))
    && TopK(chosen, pc + sc, k, before)
  }

  /** Some split claims `chosen`. */
  ghost predicate SplitMay(chosen: set<Id>, due: set<Id>, stuck: set<Id>, k: nat, before: (Id, Id) -> bool,
          lock: Id -> Time) {
    exists pc, sc :: SplitClaim(chosen, due, stuck, pc, sc, k, before, lock)
  }

  // ------------------------------------------------------------------- sets

  /** Of two sets of one size, neither is properly inside the other. */
  lemma SwapPartner(a: set<Id>, b: set<Id>, x: Id) returns (y: Id)
    requires |a| <= |b| && x in a && x !in b
    ensures y in b && y !in a
  {
    if b - a == {} {
      NothingLeft(b, a);
      SubsetSize(b, a - {x});
      assert false;
    }
    y := Pick(b - a);
  }

  // ----------------------------------------------------- the split claim

  /** The split claims exactly as many rows as there are to claim, up to the limit. */
  lemma SplitClaimSize(chosen: set<Id>, due: set<Id>, stuck: set<Id>, pc: set<Id>, sc: set<Id>, k: nat,
                       before: (Id, Id) -> bool, lock: Id -> Time)
    requires due !! stuck && SplitClaim(chosen, due, stuck, pc, sc, k, before, lock)
    ensures chosen <= due + stuck && |chosen| == Min(k, |due| + |stuck|)
  {
    UnionSize(pc, sc);
    UnionSize(due, stuck);
  }

  /** No due row is passed over for one that comes after it. */
  lemma NoDueRowPassedOver(chosen: set<Id>, due: set<Id>, stuck: set<Id>, pc: set<Id>, sc: set<Id>, k: nat,
                           before: (Id, Id) -> bool, lock: Id -> Time, x: Id, y: Id)
    requires due !! stuck && WeakOrder(before) && SplitClaim(chosen, due, stuck, pc, sc, k, before, lock)
    requires x in chosen && y in due && y !in chosen
    ensures !before(y, x)
  {
    if y !in pc {
      SplitClaimSize(chosen, due, stuck, pc, sc, k, before, lock);
      SubsetSize(pc, due);
      SubsetSize(due, due + stuck);
      UnionSize(due, stuck);
      assert |pc| == k == |chosen|;
      if x !in pc {
        var z := SwapPartner(chosen, pc, x);
        assert z in (pc + sc) - chosen;
        assert !before(y, z) && !before(z, x);
      }
    }
  }

  lemma SplitIsCombined(chosen: set<Id>, due: set<Id>, stuck: set<Id>, pc: set<Id>, sc: set<Id>, k: nat,
                        before: (Id, Id) -> bool, lock: Id -> Time)
    requires due !! stuck && WeakOrder(before) && SplitClaim(chosen, due, stuck, pc, sc, k, before, lock)
    requires |stuck| <= k
    ensures TopK(chosen, due + stuck, k, before)
  {
    SplitClaimSize(chosen, due, stuck, pc, sc, k, before, lock);
    UnionSize(due, stuck);
    SubsetSize(sc, stuck);
    forall x, y | x in chosen && y in due + stuck - chosen ensures !before(y, x) {
      if y in due { NoDueRowPassedOver(chosen, due, stuck, pc, sc, k, before, lock, x, y); }
      else { assert y in (pc + sc) - chosen; }
    }
  }

  /** Every combined selection comes out of some split: its due rows, topped
      up to k, and all the stuck ones. */
  lemma CombinedIsSplit(chosen: set<Id>, due: set<Id>, stuck: set<Id>, k: nat, before: (Id, Id) -> bool,
          lock: Id -> Time)
    returns (pc: set<Id>)
    requires due !! stuck && WeakOrder(before) && |stuck| <= k && TopK(chosen, due + stuck, k, before)
    ensures SplitClaim(chosen, due, stuck, pc, stuck, k, before, lock)
  {
    var taken := chosen * due;
    SubsetSize(taken, chosen);
    var more := TopKExists(due - taken, k - |taken|, before);
    pc := taken + more;
    UnionSize(taken, more);
    UnionSize(due - taken, taken);
    assert due == (due - taken) + taken;
    UnionSize(due, stuck);
    UnionSize(pc, stuck);
    forall x, y | x in pc && y in due - pc ensures !before(y, x) {
      if x in taken { assert y in due + stuck - chosen; } else { assert y in due - taken - more; }
    }
    SubsetOfBoth(chosen, taken, pc, due, stuck);
  }

  lemma SubsetOfBoth(chosen: set<Id>, taken: set<Id>, pc: set<Id>, due: set<Id>, stuck: set<Id>)
    requires chosen <= due + stuck && taken == chosen * due && taken <= pc <= due
    ensures chosen <= pc + stuck && (pc + stuck) - chosen <= (due + stuck) - chosen
  {}

  /** With at most k stuck rows the selections the split can make are exactly
      the combined ones, for any ORDER BY. */
  lemma SplitIffCombined(chosen: set<Id>, due: set<Id>, stuck: set<Id>, k: nat, before: (Id, Id) -> bool,
          lock: Id -> Time)
    requires due !! stuck && WeakOrder(before) && |stuck| <= k
    ensures SplitMay(chosen, due, stuck, k, before, lock) <==> TopK(chosen, due + stuck, k, before)
  {
    if TopK(chosen, due + stuck, k, before) {
      var pc := CombinedIsSplit(chosen, due, stuck, k, before, lock);
    }
    if SplitMay(chosen, due, stuck, k, before, lock) {
      var pc, sc :| SplitClaim(chosen, due, stuck, pc, sc, k, before, lock);
      SplitIsCombined(chosen, due, stuck, pc, sc, k, before, lock);
    }
  }

  /** An order that separates all rows leaves one possible selection. */
  lemma TopKUnique(a: set<Id>, b: set<Id>, from: set<Id>, k: nat, before: (Id, Id) -> bool)
    requires TopK(a, from, k, before) && TopK(b, from, k, before) && Separates(before)
    ensures a == b
  {
    if a - b == {} {
      NothingLeft(a, b);
      SubsetSize(a, b);
    } else {
      var x := Pick(a - b);
      var y := SwapPartner(a, b, x);
      var either := before(y, x) || before(x, y);
      assert false;
    }
  }

  // ------------------------------------------------------------------- ties

  /** No row left out has the key of one taken. */
  ghost predicate SharpCut(taken: set<Id>, from: set<Id>, key: Id -> Time) {
    forall x, y | x in taken && y in from - taken :: key(x) != key(y)
  }

  /** Ordered by key alone, SQL may make another selection than the one with
      ties broken by id if and only if there is a tie across the cut. */
  lemma OneSelectionIff(taken: set<Id>, from: set<Id>, k: nat, key: Id -> Time)
    requires TopK(taken, from, k, ByKeyThenId(key))
    ensures (forall chosen | TopK(chosen, from, k, ByKeyOnly(key)) :: chosen == taken) <==> SharpCut(taken, from, key)
  {
    forall chosen | TopK(chosen, from, k, ByKeyOnly(key)) && SharpCut(taken, from, key) ensures chosen == taken {
      SharpSelection(taken, chosen, from, k, key);
    }
    if x, y :| x in taken && y in from - taken && key(x) == key(y) {
      var other := SwapTied(taken, from, k, key, x, y);
    }
  }

  lemma SharpSelection(taken: set<Id>, chosen: set<Id>, from: set<Id>, k: nat, key: Id -> Time)
    requires TopK(taken, from, k, ByKeyThenId(key)) && TopK(chosen, from, k, ByKeyOnly(key))
    requires SharpCut(taken, from, key)
    ensures chosen == taken
  {
    if chosen - taken == {} {
      NothingLeft(chosen, taken);
      SubsetSize(chosen, taken);
    } else {
      var y := Pick(chosen - taken);
      var x := SwapPartner(chosen, taken, y);
      var either := ByKeyOnly(key)(x, y) || ByKeyThenId(key)(y, x);
      assert false;
    }
  }

  /** The tied pair can be swapped. */
  lemma SwapTied(taken: set<Id>, from: set<Id>, k: nat, key: Id -> Time, x: Id, y: Id) returns (other: set<Id>)
    requires TopK(taken, from, k, ByKeyThenId(key)) && x in taken && y in from - taken && key(x) == key(y)
    ensures TopK(other, from, k, ByKeyOnly(key)) && other != taken
  {
    other := taken - {x} + {y};
    assert y in other && |other| == |taken|;
    forall u, v | u in other && v in from - other ensures !ByKeyOnly(key)(v, u) {
      var a, b := if u == y then x else u, if v == x then y else v;
      assert a in taken && b in from - taken && !ByKeyThenId(key)(b, a);
    }
  }

  /** Whichever k stuck rows the lock order yields, the stuck rows of
      `combined` are among them, and with them no tie is cut. */
  ghost predicate SureClaim(combined: set<Id>, due: set<Id>, stuck: set<Id>, k: nat, next: Id -> Time,
          lock: Id -> Time) {
    forall sc | TopK(sc, stuck, k, ByKeyOnly(lock)) :: combined * stuck <= sc && SharpCut(combined, due + sc, next)
  }

  /** The combined claim is still one when stuck rows it does not take are
      left out, as long as k or all of them remain. */
  lemma CombinedOfFewer(combined: set<Id>, due: set<Id>, stuck: set<Id>, sc: set<Id>, k: nat, next: Id -> Time)
    requires due !! stuck && TopK(combined, due + stuck, k, ByKeyThenId(next))
    requires sc <= stuck && |sc| == Min(k, |stuck|) && combined * stuck <= sc
    ensures TopK(combined, due + sc, k, ByKeyThenId(next))
  {
    UnionSize(due, stuck);
    UnionSize(due, sc);
    assert combined <= due + sc by {
      forall x | x in combined ensures x in due + sc { assert x in stuck ==> x in combined * stuck; }
    }
  }

  /** The order the database runs is next_attempt_at alone. Every selection it
      may make is the combined claim, ties by id, if and only if that claim is
      a sure one. */
  lemma SplitEqualsCombinedIff(combined: set<Id>, due: set<Id>, stuck: set<Id>, k: nat, next: Id -> Time,
          lock: Id -> Time)
    requires due !! stuck && TopK(combined, due + stuck, k, ByKeyThenId(next))
    ensures (forall chosen | SplitMay(chosen, due, stuck, k, ByKeyOnly(next), lock) :: chosen == combined)
            <==> SureClaim(combined, due, stuck, k, next, lock)
  {
    if SureClaim(combined, due, stuck, k, next, lock) {
      forall chosen | SplitMay(chosen, due, stuck, k, ByKeyOnly(next), lock) ensures chosen == combined {
        SureIsTaken(chosen, combined, due, stuck, k, next, lock);
      }
    }
    if forall chosen | SplitMay(chosen, due, stuck, k, ByKeyOnly(next), lock) :: chosen == combined {
      forall sc | TopK(sc, stuck, k, ByKeyOnly(lock)) ensures combined * stuck <= sc
          && SharpCut(combined, due + sc, next) {
        TakenIsSure(combined, due, stuck, sc, k, next, lock);
      }
    }
  }

  lemma SureIsTaken(chosen: set<Id>, combined: set<Id>, due: set<Id>, stuck: set<Id>, k: nat, next: Id -> Time,
          lock: Id -> Time)
    requires due !! stuck && TopK(combined, due + stuck, k, ByKeyThenId(next))
    requires SureClaim(combined, due, stuck, k, next, lock) && SplitMay(chosen, due, stuck, k, ByKeyOnly(next), lock)
    ensures chosen == combined
  {
    var pc, sc :| SplitClaim(chosen, due, stuck, pc, sc, k, ByKeyOnly(next), lock);
    KeysOrder(next);
    assert SplitClaim(chosen, due, sc, pc, sc, k, ByKeyOnly(next), lock);
    SplitIsCombined(chosen, due, sc, pc, sc, k, ByKeyOnly(next), lock);
    CombinedOfFewer(combined, due, stuck, sc, k, next);
    SharpSelection(combined, chosen, due + sc, k, next);
  }

  lemma TakenIsSure(combined: set<Id>, due: set<Id>, stuck: set<Id>, sc: set<Id>, k: nat, next: Id -> Time,
          lock: Id -> Time)
    requires due !! stuck && TopK(combined, due + stuck, k, ByKeyThenId(next)) && TopK(sc, stuck, k, ByKeyOnly(lock))
    requires forall chosen | SplitMay(chosen, due, stuck, k, ByKeyOnly(next), lock) :: chosen == combined
    ensures combined * stuck <= sc && SharpCut(combined, due + sc, next)
  {
    KeysOrder(next);
    forall chosen | TopK(chosen, due + sc, k, ByKeyOnly(next)) ensures chosen == combined {
      var pc := CombinedIsSplit(chosen, due, sc, k, ByKeyOnly(next), lock);
      assert SplitClaim(chosen, due, stuck, pc, sc, k, ByKeyOnly(next), lock);
      assert SplitMay(chosen, due, stuck, k, ByKeyOnly(next), lock);
    }
    var some := TopKExists(due + sc, k, ByKeyOnly(next));
    CombinedOfFewer(combined, due, stuck, sc, k, next);
    OneSelectionIff(combined, due + sc, k, next);
  }

  /** With at most k stuck rows a claim is sure exactly when no candidate left
      out has the next_attempt_at of one taken. */
  lemma SureIffSharp(combined: set<Id>, due: set<Id>, stuck: set<Id>, k: nat, next: Id -> Time, lock: Id -> Time)
    requires |stuck| <= k
    ensures SureClaim(combined, due, stuck, k, next, lock) <==> SharpCut(combined, due + stuck, next)
  {
    assert TopK(stuck, stuck, k, ByKeyOnly(lock));
    forall sc | TopK(sc, stuck, k, ByKeyOnly(lock)) ensures sc == stuck { SubsetSize(sc, stuck); }
  }

  /** A split can always claim something. */
  lemma SplitExists(due: set<Id>, stuck: set<Id>, k: nat, before: (Id, Id) -> bool, lock: Id -> Time)
    returns (chosen: set<Id>)
    requires WeakOrder(before)
    ensures SplitMay(chosen, due, stuck, k, before, lock)
  {
    KeysOrder(lock);
    var pc := TopKExists(due, k, before);
    var sc := TopKExists(stuck, k, ByKeyOnly(lock));
    chosen := TopKExists(pc + sc, k, before);
    assert SplitClaim(chosen, due, stuck, pc, sc, k, before, lock);
  }

  // -------------------------------------------- the side condition is sharp

  lemma {:induction false} FirstExists(from: set<Id>, before: (Id, Id) -> bool) returns (m: Id)
    requires from != {} && WeakOrder(before)
    ensures m in from && forall y | y in from :: !before(y, m)
    decreases |from|
  {
    var x := Pick(from);
    if from == {x} { return x; }
    var rest := from - {x};
    assert from == rest + {x};
    var r := FirstExists(rest, before);
    m := if before(r, x) then r else x;
    forall y | y in from ensures !before(y, m) {
      if y != x { assert !before(y, r); }
    }
  }

  lemma {:induction false} TopKExists(from: set<Id>, k: nat, before: (Id, Id) -> bool) returns (chosen: set<Id>)
    requires WeakOrder(before)
    ensures TopK(chosen, from, k, before)
    decreases k
  {
    if k == 0 || from == {} { return {}; }
    var m := FirstExists(from, before);
    var rest := TopKExists(from - {m}, k - 1, before);
    chosen := rest + {m};
    assert from - chosen == (from - {m}) - rest;
  }

  lemma LastIsLeft(x: Id, from: set<Id>, k: nat, before: (Id, Id) -> bool, chosen: set<Id>)
    requires x in from && k < |from| && TopK(chosen, from, k, before)
    requires forall z | z in from && z != x :: before(z, x)
    ensures x !in chosen
  {
    if from - chosen == {} {
      NothingLeft(from, chosen);
      SubsetSize(from, chosen);
      assert false;
    } else {
      var z := Pick(from - chosen);
      assert x in chosen ==> !before(z, x);
    }
  }

  lemma FirstIsTaken(x: Id, from: set<Id>, k: nat, before: (Id, Id) -> bool, chosen: set<Id>)
    requires x in from && 0 < k && TopK(chosen, from, k, before)
    requires forall z | z in from && z != x :: before(x, z)
    ensures x in chosen
  {
    if x !in chosen {
      assert |from| > 0;
      var z := Pick(chosen);
      var taken := before(x, z);
      assert false;
    }
  }

  // ------------------------------------------------------ on the queue's rows

  /** A column of the table as a sort key. */
  ghost function KeyOf(column: map<Id, Time>): Id -> Time {
    id => if id in column then column[id] else 0
  }

  ghost function NextKey(rows: map<Id, Row>): Id -> Time {
    KeyOf(map id | id in rows :: rows[id].nextAttemptAt)
  }

  ghost function LockKey(rows: map<Id, Row>): Id -> Time {
    KeyOf(map id | id in rows :: rows[id].lockedAt)
  }

  function DueSet(rows: map<Id, Row>, now: Time): set<Id> {
    set id | id in rows && Due(rows[id], now)
  }

  function StuckSet(rows: map<Id, Row>, visibleSince: Time): set<Id> {
    set id | id in rows && Stuck(rows[id], visibleSince)
  }

  lemma DueAndStuck(rows: map<Id, Row>, now: Time, visibleSince: Time)
    ensures DueSet(rows, now) !! StuckSet(rows, visibleSince)
    ensures DueSet(rows, now) + StuckSet(rows, visibleSince) == Candidates(rows, now, visibleSince)
  {
    forall id ensures id in DueSet(rows, now) <==> id in rows && Due(rows[id], now) {}
    forall id ensures id in StuckSet(rows, visibleSince) <==> id in rows && Stuck(rows[id], visibleSince) {}
    forall id ensures id in Candidates(rows, now, visibleSince)
        <==> id in rows && Eligible(rows[id], now, visibleSince) {}
  }

  /** The combined claim: all candidates by next attempt, then id. */
  ghost predicate CombinedClaim(rows: map<Id, Row>, chosen: set<Id>, limit: nat, now: Time, visibleSince: Time) {
    TopK(chosen, Candidates(rows, now, visibleSince), limit, ByKeyThenId(NextKey(rows)))
  }

  /** What ClaimBatch may claim of this table: SQL orders by next_attempt_at
      alone, and is free among equals. */
  ghost predicate DatabaseMayClaim(rows: map<Id, Row>, chosen: set<Id>, limit: nat, now: Time, visibleSince: Time) {
    SplitMay(chosen, DueSet(rows, now), StuckSet(rows, visibleSince), limit, ByKeyOnly(NextKey(rows)), LockKey(rows))
  }

  /** The database claims min(limit, candidates) candidates and never passes
      over a due row with a strictly smaller next_attempt_at. */
  lemma DatabaseClaimIsFair(rows: map<Id, Row>, chosen: set<Id>, limit: nat, now: Time, visibleSince: Time)
    requires DatabaseMayClaim(rows, chosen, limit, now, visibleSince)
    ensures chosen <= Candidates(rows, now, visibleSince)
    ensures |chosen| == Min(limit, |Candidates(rows, now, visibleSince)|)
    ensures forall x, y | x in chosen && y in rows && Due(rows[y], now) && y !in chosen ::
              rows[x].nextAttemptAt <= rows[y].nextAttemptAt
  {
    var before := ByKeyOnly(NextKey(rows));
    var due, stuck := DueSet(rows, now), StuckSet(rows, visibleSince);
    var pc, sc :| SplitClaim(chosen, due, stuck, pc, sc, limit, before, LockKey(rows));
    KeysOrder(NextKey(rows));
    DueAndStuck(rows, now, visibleSince);
    SplitClaimSize(chosen, due, stuck, pc, sc, limit, before, LockKey(rows));
    UnionSize(due, stuck);
    forall x, y | x in chosen && y in rows && Due(rows[y], now) && y !in chosen
      ensures rows[x].nextAttemptAt <= rows[y].nextAttemptAt
    {
      NoDueRowPassedOver(chosen, due, stuck, pc, sc, limit, before, LockKey(rows), x, y);
    }
  }

  /** Sure on this table. */
  ghost predicate SureOnTable(rows: map<Id, Row>, combined: set<Id>, limit: nat, now: Time, visibleSince: Time) {
    SureClaim(combined, DueSet(rows, now), StuckSet(rows, visibleSince), limit, NextKey(rows), LockKey(rows))
  }

  /** On every table: everything the database may claim is what the in-memory
      repository claims if and only if that claim is sure, which with at most
      limit stuck rows means that it cuts no tie in next_attempt_at. */
  lemma DatabaseClaimMatchesIff(rows: map<Id, Row>, combined: set<Id>, limit: nat, now: Time, visibleSince: Time)
    requires CombinedClaim(rows, combined, limit, now, visibleSince)
    ensures (forall chosen | DatabaseMayClaim(rows, chosen, limit, now, visibleSince) :: chosen == combined)
            <==> SureOnTable(rows, combined, limit, now, visibleSince)
    ensures |StuckSet(rows, visibleSince)| <= limit ==>
              (SureOnTable(rows, combined, limit, now, visibleSince)
               <==> SharpCut(combined, Candidates(rows, now, visibleSince), NextKey(rows)))
  {
    var due, stuck := DueSet(rows, now), StuckSet(rows, visibleSince);
    DueAndStuck(rows, now, visibleSince);
    SplitEqualsCombinedIff(combined, due, stuck, limit, NextKey(rows), LockKey(rows));
    assert forall chosen :: DatabaseMayClaim(rows, chosen, limit, now, visibleSince)
                            <==> SplitMay(chosen, due, stuck, limit, ByKeyOnly(NextKey(rows)), LockKey(rows));
    if |stuck| <= limit { SureIffSharp(combined, due, stuck, limit, NextKey(rows), LockKey(rows)); }
  }

  /** A row in the queue for the id, last locked at `lockedAt`. */
  function QueuedRow(id: Id, status: Status, nextAttemptAt: Time, lockedAt: Time): Row {
    Row(Request(id, Pair("EUR", "MXN"), status, 0, 0, 1, "", "", false), "", nextAttemptAt, lockedAt, 0)
  }

  /** The table of these due and stuck rows in which x is first by priority
      and last by lock time, and all others are equal. */
  function LateTable(due: set<Id>, stuck: set<Id>, x: Id): map<Id, Row> {
    map id | id in due + stuck ::
      QueuedRow(id, if id in due then Pending else InProgress, if id == x then 0 else 1, if id == x then 1 else 0)
  }

  /** With any due and more than limit stuck rows there is a table on which, however SQL breaks ties, the
      database passes over the stuck row that is first by priority, because it
      was locked last. */
  lemma StuckOverflowDiverges(due: set<Id>, stuck: set<Id>, limit: nat) returns (rows: map<Id, Row>, combined: set<Id>)
    requires due !! stuck && 0 < limit < |stuck|
    ensures DueSet(rows, 1) == due && StuckSet(rows, 2) == stuck && CombinedClaim(rows, combined, limit, 1, 2)
    ensures exists chosen :: DatabaseMayClaim(rows, chosen, limit, 1, 2)
    ensures forall chosen | DatabaseMayClaim(rows, chosen, limit, 1, 2) :: chosen != combined
  {
    var x := Pick(stuck);
    rows := LateTable(due, stuck, x);
    var next, lock := NextKey(rows), LockKey(rows);
    LateTableIs(due, stuck, x);
    KeysOrder(next);
    combined := TopKExists(due + stuck, limit, ByKeyThenId(next));
    FirstIsTaken(x, due + stuck, limit, ByKeyThenId(next), combined);
    var some := SplitExists(due, stuck, limit, ByKeyOnly(next), lock);
    assert DatabaseMayClaim(rows, some, limit, 1, 2);
    forall chosen | DatabaseMayClaim(rows, chosen, limit, 1, 2) ensures x !in chosen {
      var pc, sc :| SplitClaim(chosen, due, stuck, pc, sc, limit, ByKeyOnly(next), lock);
      LastIsLeft(x, stuck, limit, ByKeyOnly(lock), sc);
    }
  }

  lemma LateTableIs(due: set<Id>, stuck: set<Id>, x: Id)
    requires due !! stuck && x in stuck
    ensures var rows := LateTable(due, stuck, x);
            && DueSet(rows, 1) == due && StuckSet(rows, 2) == stuck && Candidates(rows, 1, 2) == due + stuck
            && (forall id | id in due + stuck :: NextKey(rows)(id) == (if id == x then 0 else 1)
                 && LockKey(rows)(id) == (if id == x then 1 else 0))
  {
    var rows := LateTable(due, stuck, x);
    forall id ensures id in DueSet(rows, 1) <==> id in due {}
    forall id ensures id in StuckSet(rows, 2) <==> id in stuck {}
    forall id ensures id in Candidates(rows, 1, 2) <==> id in due + stuck {}
  }

  // -------------------------------------------------- the order of the batch

  /** The in-memory claim's order: next attempt first, then id. */
  predicate Precedes(rows: map<Id, Row>, a: Id, b: Id)
    requires a in rows && b in rows
  {
    rows[a].nextAttemptAt < rows[b].nextAttemptAt || (rows[a].nextAttemptAt == rows[b].nextAttemptAt && a < b)
  }

  predicate Ordered(rows: map<Id, Row>, order: seq<Id>) {
    && (forall i | 0 <= i < |order| :: order[i] in rows)
    && (forall i, j | 0 <= i < j < |order| :: Precedes(rows, order[i], order[j]))
  }

  function Elements(order: seq<Id>): set<Id> {
    set i | 0 <= i < |order| :: order[i]
  }

  lemma {:induction false} ElementsSize(rows: map<Id, Row>, order: seq<Id>)
    requires Ordered(rows, order)
    ensures |Elements(order)| == |order|
  {
    if order == [] {
    } else {
      var init, x := order[..|order| - 1], order[|order| - 1];
      ElementsSize(rows, init);
      assert Elements(order) == Elements(init) + {x};
      assert x !in Elements(init) by {
        forall i | 0 <= i < |init| ensures init[i] != x { assert Precedes(rows, order[i], order[|init|]); }
      }
    }
  }

  /** Truncating the sorted candidates is the combined claim. */
  lemma PrefixIsCombinedClaim(rows: map<Id, Row>, order: seq<Id>, limit: nat, now: Time, visibleSince: Time)
    requires Ordered(rows, order) && Elements(order) == Candidates(rows, now, visibleSince)
    ensures var n := if |order| > limit then limit else |order|;
            CombinedClaim(rows, Elements(order[..n]), limit, now, visibleSince)
  {
    var n := if |order| > limit then limit else |order|;
    var chosen, all := Elements(order[..n]), Elements(order);
    ElementsSize(rows, order);
    ElementsSize(rows, order[..n]);
    forall x, y | x in chosen && y in all - chosen ensures !ByKeyThenId(NextKey(rows))(y, x) {
      var i :| 0 <= i < n && order[i] == x;
      var j :| 0 <= j < |order| && order[j] == y;
      assert order[..n] + order[n..] == order;
      assert forall l | 0 <= l < n :: order[l] == order[..n][l] && order[l] in chosen;
      assert Precedes(rows, order[i], order[j]);
    }
  }
}
