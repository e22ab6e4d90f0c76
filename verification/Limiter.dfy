/**
 What the two limiter classes share around their bucket map: the process-wide list and count, and the
 settling of reservations. The classes themselves differ in their options and in the order of the
 checks of `reserve`; they are in `ApiAuthGuard` and `OpsLoginGuard`.
 */
module Limiters {
  import opened Buckets
  import opened Collections
  import opened SlidingWindow

  class Limiter {
    const limits: Limits
    const maxFingerprints: int
    const table: BucketTable
    var globalInvalidAttemptTimes: seq<int>
    var globalInFlight: int
    /** Every call so far, and whether the clock never went back on any of them. */
    ghost const start: int
    ghost var history: seq<Event>
    ghost var monotone: bool

    ghost predicate Coherent()
      reads this, table, table.buckets.Values, table.issued
    {
      && limits.Valid()
      && table.Valid()
      && table.windowMs == limits.window && table.maxFingerprints == maxFingerprints
      && Agrees(globalInvalidAttemptTimes, globalInFlight, table.ledger, AllKeys, limits.window)
    }

    /** On a clock that never went back, the calls so far are a run of the reference limiter. */
    ghost predicate Valid()
      reads this, table, table.buckets.Values, table.issued
    {
      && Coherent()
      && (monotone ==> table.ledger == Run(limits, Empty(start), history))
    }

    constructor (limits: Limits, maxFingerprints: int, ghost clock: int)
      requires limits.Valid() && 2 <= maxFingerprints
      ensures Valid() && monotone && history == [] && start == clock && fresh(table)
      ensures this.limits == limits && this.maxFingerprints == maxFingerprints && table.issued == []
      ensures table.buckets == map[]
    {
      this.limits, this.maxFingerprints, start := limits, maxFingerprints, clock;
      table := new BucketTable(limits.window, maxFingerprints, clock);
      globalInvalidAttemptTimes, globalInFlight, history, monotone := [], 0, [], true;
      new;
      assert Held(map[], AllKeys) == {};
    }

    /** Pruning, on entry to `reserve`. */
    method Refresh(now: int)
      requires Coherent()
      modifies this`globalInvalidAttemptTimes
      modifies table`keys, table`buckets, table`ledger, table.buckets.Values`invalidAttemptTimes
      ensures Coherent() && table.ledger == Observe(old(table.ledger), now)
      ensures table.buckets == old(table.AfterPruning(now)) && table.buckets.Values <= old(table.buckets.Values)
      ensures now == table.ledger.clock ==>
        globalInvalidAttemptTimes == After(TimesOf(table.ledger.marks, AllKeys), now - limits.window)
    {
      ghost var before := table.ledger;
      table.Prune(now);
      AgreesObserve(globalInvalidAttemptTimes, globalInFlight, before, AllKeys, limits.window, now);
      AgreesFilter(globalInvalidAttemptTimes, globalInFlight, table.ledger, AllKeys, limits.window, now);
      globalInvalidAttemptTimes := After(globalInvalidAttemptTimes, now - limits.window);
    }

    /** The key of a fingerprint in the map as it stands. */
    method ChooseKey(fingerprint: string) returns (key: string)
      requires Coherent()
      ensures key == KeyIn(table.buckets, fingerprint)
      ensures key in table.buckets || |table.keys| < maxFingerprints - 1 || key == OVERFLOW_FINGERPRINT
    {
      DistinctCount(table.keys, table.buckets.Keys);
      key := table.KeyFor(fingerprint);
    }

    /** A fingerprint has its own key if it has a bucket or there is room for one. */
    ghost function KeyIn(buckets: map<string, AttemptBucket>, fingerprint: string): string {
      if fingerprint in buckets || |buckets| < maxFingerprints - 1 then fingerprint else OVERFLOW_FINGERPRINT
    }

    method Grant(key: string, bucket: AttemptBucket, now: int) returns (r: Reservation)
      requires Coherent()
      requires if key in table.buckets then bucket == table.buckets[key] else
                 && bucket !in table.buckets.Values && bucket.inFlight == 0 && bucket.invalidAttemptTimes == []
                 && (|table.keys| < maxFingerprints - 1 || key == OVERFLOW_FINGERPRINT)
      modifies this`globalInFlight, table, bucket`inFlight
      ensures Coherent()
      ensures fresh(r) && r.key == key && table.Issued(r) && !r.settled
      ensures table.issued == old(table.issued) + [r]
      ensures table.ledger == Admit(old(table.ledger), key, now)
      ensures |table.keys| >= old(|table.keys|)
      ensures table.buckets.Keys == old(table.buckets.Keys) + {key}
    {
      AgreesAdmit(globalInvalidAttemptTimes, globalInFlight, table.ledger, AllKeys, limits.window, key, now);
      WithoutDistinct(table.keys, key);
      globalInFlight := globalInFlight + 1;
      r := table.Take(key, bucket, now);
    }

    /**
     What every call of `reserve` does. The key is chosen in the map that pruning leaves. While the clock
     does not go back, the decision is the one the reference limiter takes for that key, whatever was
     filtered, pruned or deleted before.
     */
    twostate predicate Reserved(new r: Reservation?, key: string, fingerprint: string, now: int)
      reads this, table, r
    {
      && (now >= old(table.ledger.clock) ==>
            (r != null <==> Admits(limits, Observe(old(table.ledger), now), key, now)))
      && (r == null ==> table.issued == old(table.issued) && table.ledger == Observe(old(table.ledger), now))
      && (r != null ==>
            && fresh(r) && r.key == key && table.Issued(r) && !r.settled
            && table.issued == old(table.issued) + [r]
            && table.ledger == Admit(Observe(old(table.ledger), now), key, now))
      && key == KeyIn(old(table.AfterPruning(now)), fingerprint)
    }

    ghost method LogReserve(key: string, now: int, before: Ledger)
      requires Coherent() && (monotone ==> before == Run(limits, Empty(start), history))
      requires table.ledger == Observe(before, now) || table.ledger == Admit(Observe(before, now), key, now)
      requires now >= before.clock ==> table.ledger == Step(limits, before, Reserve(key, now))
      modifies this`history, this`monotone
      ensures Valid()
      ensures history == old(history) + [Reserve(key, now)]
      ensures monotone == (old(monotone) && now >= before.clock)
    {
      RunAppend(limits, Empty(start), history, Reserve(key, now));
      history, monotone := history + [Reserve(key, now)], monotone && now >= before.clock;
    }

    /** `markInvalid` and `release` are the two ways to call this closure of a reservation. */
    method Settle(r: Reservation, invalid: bool, settledAt: int)
      requires Valid() && table.Issued(r)
      modifies this, table, r`settled, r.bucket
      ensures Valid() && r.settled && table.issued == old(table.issued) && monotone == old(monotone)
      ensures history == old(history) + [SettleEvent(r.id, invalid, settledAt)]
      ensures table.ledger == Step(limits, old(table.ledger), SettleEvent(r.id, invalid, settledAt))
      ensures old(r.settled) ==> table.ledger == old(table.ledger)
      ensures !old(r.settled) ==>
        r.id in old(table.ledger.pending) && table.ledger == Settled(old(table.ledger), r.id, invalid, settledAt)
    {
      hide Run, Settled, Agrees;
      ghost var event := SettleEvent(r.id, invalid, settledAt);
      assert table.Tracked(r.id);
      SettledIsStep(limits, table.ledger, r.id, invalid, settledAt);
      if !r.settled {
        SettleOnce(r, invalid, settledAt);
      }
      RunAppend(limits, Empty(start), history, event);
      history := history + [event];
    }

    method SettleOnce(r: Reservation, invalid: bool, settledAt: int)
      requires Coherent() && table.Issued(r) && !r.settled
      modifies this`globalInFlight, this`globalInvalidAttemptTimes
      modifies table`keys, table`buckets, table`ledger, r`settled, r.bucket
      ensures Coherent() && r.settled && r.id in old(table.ledger.pending)
      ensures table.ledger == Settled(old(table.ledger), r.id, invalid, settledAt)
    {
      assert table.Tracked(r.id);
      AgreesSettled(globalInvalidAttemptTimes, globalInFlight, table.ledger, limits.window, r.id, invalid, settledAt);
      globalInFlight := if globalInFlight - 1 < 0 then 0 else globalInFlight - 1;
      if invalid {
        globalInvalidAttemptTimes := globalInvalidAttemptTimes + [settledAt];
      }
      table.Close(r, invalid, settledAt);
    }

    /** The promise of both classes, in every state their methods reach on a clock that never goes back. */
    lemma WindowHolds(scope: Scope, to: int)
      requires Valid() && monotone && RunSettlesInOrder(limits, Empty(start), history)
      ensures CountWithin(TimesOf(table.ledger.marks, scope), to - limits.window, to) <= limits.For(scope)
    {
      SlidingWindowHolds(limits, start, history, scope, to);
    }

    /** Under its own key and the shared one together, a fingerprint is marked at most twice the limit per key. */
    lemma FingerprintBounded(fingerprint: string, to: int)
      requires Valid() && monotone && RunSettlesInOrder(limits, Empty(start), history)
      ensures CountWithin(TimesOf(table.ledger.marks, OneKey(fingerprint)), to - limits.window, to)
            + CountWithin(TimesOf(table.ledger.marks, OneKey(OVERFLOW_FINGERPRINT)), to - limits.window, to)
           <= 2 * limits.perKey
    {
      WindowHolds(OneKey(fingerprint), to);
      WindowHolds(OneKey(OVERFLOW_FINGERPRINT), to);
    }

    /** The global counters are the totals of the buckets, and the map never outgrows its bound. */
    lemma CountersAgree()
      requires Valid()
      ensures globalInFlight == table.InFlightTotal(table.keys)
      ensures |After(globalInvalidAttemptTimes, table.Horizon())| == table.RecentTotal(table.keys)
      ensures |table.buckets| == |table.keys| <= maxFingerprints
    {
      table.TotalsAreComplete();
      DistinctCount(table.keys, table.buckets.Keys);
    }

    /** Nothing stays in flight once every reservation is settled. */
    lemma NothingLeftInFlight()
      requires Valid()
      requires forall r <- table.issued :: r.settled
      ensures globalInFlight == 0
      ensures forall k :: k in table.buckets ==> table.buckets[k].inFlight == 0
    {
      table.Quiescent();
      assert Held(table.ledger.pending, AllKeys) == {};
    }
  }
}
