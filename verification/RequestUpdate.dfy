/** The idempotency contract of the request-update use case: create, and if
    the key is taken look its owner up, with anything in between. */
module Idempotency {
  import opened Wrappers
  import opened Domain
  import opened Queue
  import opened MemoryRepository

  /** The answer to a request whose create had this outcome and whose lookup,
      if there was one, read the store `later`; the flag is "replayed". */
  function Answer(outcome: Outcome, later: Store, req: Request, key: string): Result<(Request, bool), Error> {
    match outcome
    case Done => Ok((req, false))
    case Refused(KeyExists) =>
      (match ByKey(later, key)
       case Err(e) => Err(e)
       case Ok(existing) => if existing.pair != req.pair then Err(IdempotencyConflict) else Ok((existing, true)))
    case Refused(e) => Err(e)
  }

  /** The raw pair is parsed first; what does not parse touches nothing. */
  method RequestUpdate(repo: Repository, parse: string -> Result<Pair, Error>, rawPair: string, key: string, id: Id,
          now: Time)
    returns (r: Result<(Request, bool), Error>)
    requires repo.Valid()
    modifies repo
    ensures repo.Valid()
    ensures match parse(rawPair)
            case Err(e) => repo.Value() == old(repo.Value()) && r == Err(e)
            case Ok(pair) =>
              var req := NewRequest(id, pair, now);
              var (after, outcome) := Create(old(repo.Value()), req, key);
              repo.Value() == after && r == Answer(outcome, after, req, key)
  {
    var parsed := parse(rawPair);
    if parsed.Err? {
      return Err(parsed.error);
    }
    var pair := parsed.value;
    var req := NewRequest(id, pair, now);
    var outcome := repo.CreateUpdateRequest(req, key);
    match outcome
    case Done => return Ok((req, false));
    case Refused(error) =>
      if error != KeyExists {
        return Err(error);
      }
      var existing := repo.GetByIdempotencyKey(key);
      match existing
      case Err(e) => return Err(e);
      case Ok(found) =>
        if found.pair != pair {
          return Err(IdempotencyConflict);
        }
        return Ok((found, true));
  }

  /** Two requests with one key, with any run of other requests, claims and
      completions between them and between the second's create and lookup:
      the second is answered with the key's owner if it asks for the owner's
      pair, and with the conflict otherwise; it never creates, and its lookup
      never fails. The owner is the first request if the key was free. */
  lemma SameKeySameAnswer(s: Store, first: Request, key: string, between: seq<Op>, second: Request, during: seq<Op>)
    requires Consistent(s) && key != "" && Possible(s, Submit(first, key))
    requires var s1 := Create(s, first, key).0;
             && WorkerRun(s1, between)
             && Possible(Exec(s1, between), Submit(second, key))
             && WorkerRun(Create(Exec(s1, between), second, key).0, during)
    ensures var s1 := Create(s, first, key).0;
            var s2 := Exec(s1, between);
            var (s3, outcome) := Create(s2, second, key);
            var answer := Answer(outcome, Exec(s3, during), second, key);
            && key in s1.index && s1.index[key] in s1.rows
            && (var owner := s1.rows[s1.index[key]].req;
                && (key !in s.index ==>
                     Answer(Create(s, first, key).1, s1, first, key) == Ok((first, false)) && owner == first)
                && s3 == s2 && outcome == Refused(KeyExists)
                && (second.pair == owner.pair ==>
                      && s1.index[key] in Exec(s3, during).rows
                      && answer == Ok((Exec(s3, during).rows[s1.index[key]].req, true))
                      && answer.value.0.createdAt == owner.createdAt)
                && (second.pair == owner.pair ==>
                     answer.Ok? && answer.value.1 && answer.value.0.id == owner.id && answer.value.0.pair == owner.pair)
                && (second.pair != owner.pair ==> answer == Err(IdempotencyConflict)))
  {
    StepKeeps(s, Submit(first, key));
    var s1 := Create(s, first, key).0;
    var s2 := Exec(s1, between);
    KeyIsForever(s1, between, key);
    RunKeeps(s1, between);
    KeyIsForever(s2, during, key);
    assert RowOk(s1, s1.index[key]);
  }

  /** How many requests of a run are created under this key. */
  ghost function Creations(s: Store, ops: seq<Op>, key: string): nat
    decreases |ops|
  {
    if ops == [] then 0
    else (if ops[0].Submit? && ops[0].key == key && Apply(s, ops[0]).1.Done? then 1 else 0)
         + Creations(Apply(s, ops[0]).0, ops[1..], key)
  }

  /** A non-empty key creates exactly one row, however often it is sent. */
  lemma {:induction false} CreatedOnce(s: Store, ops: seq<Op>, key: string)
    requires Consistent(s) && WorkerRun(s, ops) && key != ""
    ensures Creations(s, ops, key) == if key !in s.index && key in Exec(s, ops).index then 1 else 0
    decreases |ops|
  {
    if ops == [] {
    } else {
      var t := Apply(s, ops[0]).0;
      StepKeeps(s, ops[0]);
      CreatedOnce(t, ops[1..], key);
      if key in t.index { KeyIsForever(t, ops[1..], key); }
      IndexStep(s, ops[0], key);
    }
  }

  /** Only a create with that key changes a key's entry. */
  lemma IndexStep(s: Store, op: Op, key: string)
    requires Consistent(s) && Possible(s, op) && FromWorker(s, op) && key != ""
    ensures var (t, outcome) := Apply(s, op);
            key in t.index <==> key in s.index || (op.Submit? && op.key == key)
    ensures op.Submit? && op.key == key ==> (Apply(s, op).1.Done? <==> key !in s.index)
  {
    if op.Success? { PostIs(s, op.pair, op.rate); }
  }
}
