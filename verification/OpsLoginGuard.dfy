/**
 `InProcessOpsLoginLimiter` and its client `authenticateOpsLoginRequest`.

 The client is asynchronous: between its reservation and its answer any number of other calls run. It
 is therefore two atomic steps, `Begin` up to the first `await` and `Finish` after the body was read.
 */
module OpsLoginGuard {
  import opened Buckets
  import opened Decimals
  import opened Limiters
  import opened SlidingWindow
  import opened Wrappers

  datatype Options = Options(
    maxInvalidAttemptsPerFingerprint: int, maxInvalidAttemptsGlobal: int, windowMs: int, maxFingerprints: int)
  {
    predicate Accepted() {
      && IsSafeInteger(maxInvalidAttemptsPerFingerprint) && maxInvalidAttemptsPerFingerprint >= 1
      && IsSafeInteger(maxInvalidAttemptsGlobal)
      && maxInvalidAttemptsGlobal >= maxInvalidAttemptsPerFingerprint
      && IsSafeInteger(windowMs) && windowMs >= 1
      && IsSafeInteger(maxFingerprints) && maxFingerprints >= 2
    }
  }

  method Create(options: Options, ghost clock: int) returns (limiter: Limiter?)
    ensures limiter != null <==>
      && 1 <= options.maxInvalidAttemptsPerFingerprint
           <= options.maxInvalidAttemptsGlobal <= 9_007_199_254_740_991
      && 1 <= options.windowMs <= 9_007_199_254_740_991
      && 2 <= options.maxFingerprints <= 9_007_199_254_740_991
    ensures limiter != null ==>
      && fresh(limiter) && limiter.Valid() && limiter.monotone && limiter.history == []
      && limiter.limits
           == Limits(options.maxInvalidAttemptsPerFingerprint, options.maxInvalidAttemptsGlobal, options.windowMs)
      && limiter.maxFingerprints == options.maxFingerprints
  {
    limiter := null;
    if options.Accepted() {
      limiter := new Limiter(
        Limits(options.maxInvalidAttemptsPerFingerprint, options.maxInvalidAttemptsGlobal, options.windowMs),
        options.maxFingerprints, clock);
    }
  }

  /** `reserve`: here the bucket is selected and filtered before either limit is looked at. */
  method Reserve(limiter: Limiter, fingerprint: string, now: int) returns (r: Reservation?, ghost key: string)
    requires limiter.Valid()
    modifies limiter, limiter.table, limiter.table.buckets.Values
    ensures limiter.Valid() && limiter.Reserved(r, key, fingerprint, now)
    ensures var pruned := old(limiter.table.AfterPruning(now));
      key == if fingerprint in pruned || |pruned| <= limiter.maxFingerprints - 2 then fingerprint
             else "__bounded_overflow__"
    ensures limiter.history == old(limiter.history) + [Event.Reserve(key, now)]
    ensures limiter.monotone == (old(limiter.monotone) && now >= old(limiter.table.ledger.clock))
  {
    ghost var before := limiter.table.ledger;
    r, key := TryReserve(limiter, fingerprint, now);
    limiter.LogReserve(key, now, before);
  }

  method TryReserve(limiter: Limiter, fingerprint: string, now: int) returns (r: Reservation?, ghost key: string)
    requires limiter.Coherent()
    modifies limiter`globalInvalidAttemptTimes, limiter`globalInFlight
    modifies limiter.table, limiter.table.buckets.Values
    ensures limiter.Coherent() && limiter.Reserved(r, key, fingerprint, now)
  {
    hide Limiter.Coherent, Limiter.KeyIn, BucketTable.AfterPruning, BucketTable.Issued;
    hide Admits, Admit, After, TimesOf, InFlight;
    limiter.Refresh(now);
    var bucketKey := limiter.ChooseKey(fingerprint);
    key := bucketKey;
    var bucket := FindRoom(limiter, bucketKey, now);
    if bucket == null {
      return null, key;
    }
    r := limiter.Grant(bucketKey, bucket, now);
  }

  method FindRoom(limiter: Limiter, key: string, now: int) returns (bucket: AttemptBucket?)
    requires limiter.Coherent() && now <= limiter.table.ledger.clock
    modifies limiter.table.buckets.Values`invalidAttemptTimes
    ensures limiter.Coherent()
    ensures
      (now == limiter.table.ledger.clock
       && limiter.globalInvalidAttemptTimes
            == After(TimesOf(limiter.table.ledger.marks, AllKeys), now - limiter.limits.window)) ==>
      (bucket != null <==> Admits(limiter.limits, limiter.table.ledger, key, now))
    ensures bucket != null ==>
      if key in limiter.table.buckets then bucket == limiter.table.buckets[key] else
        fresh(bucket) && bucket.inFlight == 0 && bucket.invalidAttemptTimes == []
  {
    hide After, TimesOf, Held;
    bucket := limiter.table.Select(key, now);
    if !Available(|bucket.invalidAttemptTimes|, bucket.inFlight, limiter.limits.perKey)
       || !Available(|limiter.globalInvalidAttemptTimes|, limiter.globalInFlight, limiter.limits.total) {
      return null;
    }
  }

  predicate Available(recent: int, inFlight: int, limit: int) {
    recent + inFlight < limit
  }

  // ---- The client ----

  /** What came of reading the body: it may be too large, no JSON object with a token, or throw. */
  datatype Body = TooLarge | NoToken | Token(token: string) | Threw

  datatype Answer = Granted | Refused(status: int) | Rethrown

  datatype Admission = NotJson | TooMany | Started(r: Reservation)

  const MIN_SECRET_LENGTH := 32

  /** The answer of a request that was admitted. Comparing digests is comparing the tokens. */
  function AnswerTo(body: Body, expected: string, secret: string, issueThrows: bool): Answer {
    if body.Threw? then Rethrown
    else if body.TooLarge? then Refused(413)
    else if |expected| < MIN_SECRET_LENGTH || |secret| < MIN_SECRET_LENGTH then Refused(503)
    else if body != Token(expected) then Refused(401)
    else if issueThrows then Rethrown
    else Granted
  }

  /** Only a wrong or oversized body counts as an invalid attempt. */
  predicate CountsAsInvalid(answer: Answer) {
    answer == Refused(413) || answer == Refused(401)
  }

  // ---- The answers over a run ----

  /** A request that was answered: the key it was counted under, when it came, and its answer. */
  datatype Answered = Answered(key: string, at: int, answer: Answer)

  /** The limiter and what its client has answered. */
  datatype Desk = Desk(ledger: Ledger, answers: seq<Answered>)

  datatype Call =
    | Arrives(isJson: bool, key: string, now: int)
    | Ends(id: nat, body: Body, expected: string, secret: string, issueThrows: bool)

  /** `Begin` and `Finish`, of a request whose reservation was taken at a time of its own. */
  function Serve(limits: Limits, d: Desk, c: Call): Desk {
    match c
    case Arrives(isJson, key, now) =>
      if !isJson then d.(answers := d.answers + [Answered(key, now, Refused(415))])
      else
        var next := Step(limits, d.ledger, Event.Reserve(key, now));
        if Admits(limits, Observe(d.ledger, now), key, now) then d.(ledger := next)
        else Desk(next, d.answers + [Answered(key, now, Refused(429))])
    case Ends(id, body, expected, secret, issueThrows) =>
      if id !in d.ledger.pending then d
      else
        var answer, r := AnswerTo(body, expected, secret, issueThrows), d.ledger.pending[id];
        Desk(Settled(d.ledger, id, CountsAsInvalid(answer), r.since), d.answers + [Answered(r.key, r.since, answer)])
  }

  function ServeAll(limits: Limits, clock: int, calls: seq<Call>): Desk {
    if calls == [] then Desk(Empty(clock), [])
    else Serve(limits, ServeAll(limits, clock, calls[..|calls| - 1]), calls[|calls| - 1])
  }

  /** The times of the requests that were answered 401 or 413, of one key or of all. */
  function Failures(answers: seq<Answered>, scope: Scope): seq<int> {
    if answers == [] then []
    else
      var before, last := Failures(answers[..|answers| - 1], scope), answers[|answers| - 1];
      if scope.Covers(last.key) && (last.answer == Refused(401) || last.answer == Refused(413))
      then before + [last.at] else before
  }

  lemma FailuresNext(answers: seq<Answered>, a: Answered, scope: Scope)
    ensures Failures(answers + [a], scope) == Failures(answers, scope)
      + if scope.Covers(a.key) && (a.answer == Refused(401) || a.answer == Refused(413)) then [a.at] else []
  {
    assert (answers + [a])[..|answers|] == answers;
  }

  /** What is marked is what was answered 401 or 413, no more and no less, at the same times. */
  ghost predicate Counted(d: Desk) {
    forall scope: Scope :: TimesOf(d.ledger.marks, scope) == Failures(d.answers, scope)
  }

  lemma ServeCounts(limits: Limits, d: Desk, c: Call)
    requires Counted(d)
    ensures Counted(Serve(limits, d, c))
  {
    hide Admits, TimesOf, Failures;
    forall scope: Scope
      ensures TimesOf(Serve(limits, d, c).ledger.marks, scope) == Failures(Serve(limits, d, c).answers, scope)
    {
      assert TimesOf(d.ledger.marks, scope) == Failures(d.answers, scope);
      match c
      case Arrives(_, key, now) =>
        FailuresNext(d.answers, Answered(key, now, Refused(415)), scope);
        FailuresNext(d.answers, Answered(key, now, Refused(429)), scope);
      case Ends(id, body, expected, secret, issueThrows) =>
        if id in d.ledger.pending {
          var answer, r := AnswerTo(body, expected, secret, issueThrows), d.ledger.pending[id];
          FailuresNext(d.answers, Answered(r.key, r.since, answer), scope);
          TimesOfAppend(d.ledger.marks, Mark(r.key, r.since), scope);
        }
    }
  }

  lemma ServeKeepsBounded(limits: Limits, d: Desk, c: Call)
    requires d.ledger.Valid() && Bounded(limits, d.ledger)
    ensures Serve(limits, d, c).ledger.Valid() && Bounded(limits, Serve(limits, d, c).ledger)
  {
    hide Bounded, Admits, Step;
    match c
    case Arrives(_, key, now) => StepKeepsBounded(limits, d.ledger, Event.Reserve(key, now));
    case Ends(id, _, _, _, _) =>
      if id in d.ledger.pending {
        MarkKeepsBounded(limits, d.ledger, id, d.ledger.pending[id].since);
        ReleaseKeepsBounded(limits, d.ledger, id);
      }
  }

  lemma {:induction false} ServeAllKeeps(limits: Limits, clock: int, calls: seq<Call>)
    requires limits.Valid()
    ensures var d := ServeAll(limits, clock, calls);
      Counted(d) && d.ledger.Valid() && Bounded(limits, d.ledger)
  {
    hide Bounded, Serve, Counted;
    if calls == [] {
      NothingCounted(clock);
      RunKeepsBounded(limits, clock, []);
    } else {
      var before := ServeAll(limits, clock, calls[..|calls| - 1]);
      ServeAllKeeps(limits, clock, calls[..|calls| - 1]);
      ServeCounts(limits, before, calls[|calls| - 1]);
      ServeKeepsBounded(limits, before, calls[|calls| - 1]);
    }
  }

  lemma NothingCounted(clock: int)
    ensures Counted(Desk(Empty(clock), []))
  {}

  /**
   However requests come, overlap and end: of those that came within one window, the ones answered 401 or 413
   are at most the limit, under each key and in all. So a token is not guessed more often than that.
   */
  lemma FailuresAreLimited(limits: Limits, clock: int, calls: seq<Call>, key: string, to: int)
    requires limits.Valid()
    ensures var answers := ServeAll(limits, clock, calls).answers;
      && CountWithin(Failures(answers, OneKey(key)), to - limits.window, to) <= limits.perKey
      && CountWithin(Failures(answers, AllKeys), to - limits.window, to) <= limits.total
  {
    hide ServeAll;
    ServeAllKeeps(limits, clock, calls);
    var d := ServeAll(limits, clock, calls);
    assert Load(d.ledger, OneKey(key), limits.window, to) <= limits.For(OneKey(key));
    assert Load(d.ledger, AllKeys, limits.window, to) <= limits.For(AllKeys);
  }

  // ---- The program ----

  method Begin(limiter: Limiter, isJson: bool, fingerprint: string, now: int)
    returns (admission: Admission, ghost key: string)
    requires limiter.Valid()
    modifies limiter, limiter.table, limiter.table.buckets.Values
    ensures limiter.Valid()
    ensures admission == NotJson <==> !isJson
    ensures !isJson ==>
      limiter.history == old(limiter.history) && limiter.table.ledger == old(limiter.table.ledger)
    ensures admission.Started? ==>
      && fresh(admission.r) && limiter.table.Issued(admission.r) && !admission.r.settled
      && admission.r.id in limiter.table.ledger.pending
      && limiter.table.ledger.pending[admission.r.id].since == now
      && limiter.table.issued == old(limiter.table.issued) + [admission.r]
    ensures !admission.Started? ==> limiter.table.issued == old(limiter.table.issued)
    ensures isJson ==> key == old(limiter.KeyIn(limiter.table.AfterPruning(now), fingerprint))
    ensures now >= old(limiter.table.ledger.clock) ==>
      && (admission.Started? <==> isJson && Admits(limiter.limits, Observe(old(limiter.table.ledger), now), key, now))
      && Serve(limiter.limits, Desk(old(limiter.table.ledger), []), Arrives(isJson, key, now))
         == Desk(limiter.table.ledger, match admission
                                       case NotJson => [Answered(key, now, Refused(415))]
                                       case TooMany => [Answered(key, now, Refused(429))]
                                       case Started(_) => [])
    ensures limiter.monotone ==> old(limiter.monotone)
    ensures old(RunSettlesInOrder(limiter.limits, Empty(limiter.start), limiter.history)) ==>
      RunSettlesInOrder(limiter.limits, Empty(limiter.start), limiter.history)
  {
    hide Limiter.KeyIn, BucketTable.AfterPruning, Admits, Run, RunSettlesInOrder;
    key := "";
    if !isJson {
      return NotJson, key;
    }
    ghost var past := limiter.history;
    var r, reservedKey := Reserve(limiter, fingerprint, now);
    key := reservedKey;
    RunAppend(limiter.limits, Empty(limiter.start), past, Event.Reserve(key, now));
    admission := if r == null then TooMany else Started(r);
  }

  /**
   However the request ends, its reservation is settled exactly once, and dated no earlier than it was
   taken: `now` is still the time `Begin` was given.
   */
  method Finish(limiter: Limiter, r: Reservation, now: int, body: Body, expected: string, secret: string,
                issueThrows: bool) returns (answer: Answer)
    requires limiter.Valid() && limiter.table.Issued(r) && !r.settled
    requires r.id in limiter.table.ledger.pending ==> limiter.table.ledger.pending[r.id].since == now
    modifies limiter, limiter.table, r`settled, r.bucket
    ensures limiter.Valid() && r.settled
    ensures limiter.table.issued == old(limiter.table.issued) && limiter.monotone == old(limiter.monotone)
    ensures answer ==
      if body.Threw? then Rethrown
      else if body.TooLarge? then Refused(413)
      else if |expected| < 32 || |secret| < 32 then Refused(503)
      else if body.Token? && body.token == expected then (if issueThrows then Rethrown else Granted)
      else Refused(401)
    ensures r.id in old(limiter.table.ledger.pending)
    ensures limiter.table.ledger ==
      if answer == Refused(401) || answer == Refused(413)
      then SlidingWindow.MarkInvalid(old(limiter.table.ledger), r.id, now)
      else SlidingWindow.Release(old(limiter.table.ledger), r.id)
    ensures Serve(limiter.limits, Desk(old(limiter.table.ledger), []),
                  Ends(r.id, body, expected, secret, issueThrows))
         == Desk(limiter.table.ledger, [Answered(r.key, now, answer)])
    ensures old(limiter.monotone && RunSettlesInOrder(limiter.limits, Empty(limiter.start), limiter.history)) ==>
      RunSettlesInOrder(limiter.limits, Empty(limiter.start), limiter.history)
  {
    assert limiter.table.Tracked(r.id);
    if body.Threw? {
      Release(limiter, r);
      return Rethrown;
    }
    if body.TooLarge? {
      MarkInvalid(limiter, r, now);
      return Refused(413);
    }
    if |expected| < MIN_SECRET_LENGTH || |secret| < MIN_SECRET_LENGTH {
      Release(limiter, r);
      return Refused(503);
    }
    if body != Token(expected) {
      MarkInvalid(limiter, r, now);
      return Refused(401);
    }
    Release(limiter, r);
    if issueThrows {
      Release(limiter, r);
      return Rethrown;
    }
    return Granted;
  }

  method Release(limiter: Limiter, r: Reservation)
    requires limiter.Valid() && limiter.table.Issued(r)
    modifies limiter, limiter.table, r`settled, r.bucket
    ensures limiter.Valid() && limiter.table.Issued(r) && r.settled
    ensures limiter.table.issued == old(limiter.table.issued) && limiter.monotone == old(limiter.monotone)
    ensures old(r.settled) ==> limiter.table.ledger == old(limiter.table.ledger)
    ensures !old(r.settled) ==>
      && r.id in old(limiter.table.ledger.pending)
      && limiter.table.ledger == SlidingWindow.Release(old(limiter.table.ledger), r.id)
    ensures old(RunSettlesInOrder(limiter.limits, Empty(limiter.start), limiter.history)) ==>
      RunSettlesInOrder(limiter.limits, Empty(limiter.start), limiter.history)
  {
    RunAppend(limiter.limits, Empty(limiter.start), limiter.history, Released(r.id));
    // A release dates nothing, so the time it passes is never recorded.
    limiter.Settle(r, false, 0);
  }

  method MarkInvalid(limiter: Limiter, r: Reservation, now: int)
    requires limiter.Valid() && limiter.table.Issued(r) && !r.settled
    requires r.id in limiter.table.ledger.pending ==> limiter.table.ledger.pending[r.id].since == now
    modifies limiter, limiter.table, r`settled, r.bucket
    ensures limiter.Valid() && r.settled
    ensures limiter.table.issued == old(limiter.table.issued) && limiter.monotone == old(limiter.monotone)
    ensures r.id in old(limiter.table.ledger.pending)
    ensures limiter.table.ledger == SlidingWindow.MarkInvalid(old(limiter.table.ledger), r.id, now)
    ensures old(limiter.monotone && RunSettlesInOrder(limiter.limits, Empty(limiter.start), limiter.history)) ==>
      RunSettlesInOrder(limiter.limits, Empty(limiter.start), limiter.history)
  {
    RunAppend(limiter.limits, Empty(limiter.start), limiter.history, MarkedInvalid(r.id, now));
    limiter.Settle(r, true, now);
  }
}
