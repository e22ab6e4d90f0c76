/** `InProcessInvalidApiKeyLimiter`: the limiter in front of API-key verification. */
module ApiAuthGuard {
  import opened Buckets
  import opened Decimals
  import opened Limiters
  import opened SlidingWindow
  import opened Wrappers

  datatype Options = Options(
    maxInvalidAttempts: int, windowMs: int, maxFingerprints: int, maxGlobalInvalidAttempts: Option<int>)
  {
    predicate Accepted() {
      && IsSafeInteger(maxInvalidAttempts) && maxInvalidAttempts >= 1
      && IsSafeInteger(windowMs) && windowMs >= 1
      && IsSafeInteger(maxFingerprints) && maxFingerprints >= 2
      && (maxGlobalInvalidAttempts.Some? ==>
            && IsSafeInteger(maxGlobalInvalidAttempts.value)
            && maxGlobalInvalidAttempts.value >= maxInvalidAttempts)
    }

    function GlobalLimit(): int {
      match maxGlobalInvalidAttempts
      case Some(limit) => limit
      case None => maxInvalidAttempts * 8
    }
  }

  /** `new` throws on anything but an accepted set of options. */
  method Create(options: Options, ghost clock: int) returns (limiter: Limiter?)
    ensures limiter != null <==>
      && 1 <= options.maxInvalidAttempts <= 9_007_199_254_740_991 && 1 <= options.windowMs <= 9_007_199_254_740_991
      && 2 <= options.maxFingerprints <= 9_007_199_254_740_991
      && (options.maxGlobalInvalidAttempts == None
          || options.maxInvalidAttempts <= options.maxGlobalInvalidAttempts.value <= 9_007_199_254_740_991)
    ensures limiter != null ==>
      && fresh(limiter) && limiter.Valid() && limiter.monotone && limiter.history == []
      && limiter.limits.perKey == options.maxInvalidAttempts && limiter.limits.window == options.windowMs
      && limiter.limits.total ==
        (if options.maxGlobalInvalidAttempts == None then 8 * options.maxInvalidAttempts
         else options.maxGlobalInvalidAttempts.value)
      && limiter.maxFingerprints == options.maxFingerprints
  {
    limiter := null;
    if options.Accepted() {
      limiter := new Limiter(
        Limits(options.maxInvalidAttempts, options.GlobalLimit(), options.windowMs), options.maxFingerprints, clock);
    }
  }

  /** `reserve`: the process-wide limit is looked at first, and a refusal there leaves the buckets alone. */
  method Reserve(limiter: Limiter, fingerprint: string, now: int) returns (r: Reservation?, ghost key: string)
    requires limiter.Valid()
    modifies limiter, limiter.table, limiter.table.buckets.Values
    ensures limiter.Valid() && limiter.Reserved(r, key, fingerprint, now)
    ensures var pruned := old(limiter.table.AfterPruning(now));
      key == if fingerprint in pruned || |pruned| <= limiter.maxFingerprints - 2 then fingerprint
             else "__bounded_overflow__"
    ensures limiter.history == old(limiter.history) + [Event.Reserve(key, now)]
    ensures limiter.monotone == (old(limiter.monotone) && now >= old(limiter.table.ledger.clock))
  {
    ghost var before := limiter.table.ledger;
    r, key := TryReserve(limiter, fingerprint, now);
    limiter.LogReserve(key, now, before);
  }

  method TryReserve(limiter: Limiter, fingerprint: string, now: int) returns (r: Reservation?, ghost key: string)
    requires limiter.Coherent()
    modifies limiter`globalInvalidAttemptTimes, limiter`globalInFlight
    modifies limiter.table, limiter.table.buckets.Values
    ensures limiter.Coherent() && limiter.Reserved(r, key, fingerprint, now)
  {
    hide Limiter.Coherent, Limiter.KeyIn, BucketTable.AfterPruning, BucketTable.Issued;
    hide Admits, Admit, After, TimesOf, InFlight;
    limiter.Refresh(now);
    var bucketKey := limiter.ChooseKey(fingerprint);
    key := bucketKey;
    var bucket := FindRoom(limiter, bucketKey, now);
    if bucket == null {
      return null, key;
    }
    r := limiter.Grant(bucketKey, bucket, now);
  }

  method FindRoom(limiter: Limiter, key: string, now: int) returns (bucket: AttemptBucket?)
    requires limiter.Coherent() && now <= limiter.table.ledger.clock
    modifies limiter.table.buckets.Values`invalidAttemptTimes
    ensures limiter.Coherent()
    ensures
      (now == limiter.table.ledger.clock
       && limiter.globalInvalidAttemptTimes
            == After(TimesOf(limiter.table.ledger.marks, AllKeys), now - limiter.limits.window)) ==>
      (bucket != null <==> Admits(limiter.limits, limiter.table.ledger, key, now))
    ensures bucket != null ==>
      if key in limiter.table.buckets then bucket == limiter.table.buckets[key] else
        fresh(bucket) && bucket.inFlight == 0 && bucket.invalidAttemptTimes == []
  {
    hide After, TimesOf, Held;
    if |limiter.globalInvalidAttemptTimes| + limiter.globalInFlight >= limiter.limits.total {
      return null;
    }
    bucket := limiter.table.Select(key, now);
    if |bucket.invalidAttemptTimes| + bucket.inFlight >= limiter.limits.perKey {
      return null;
    }
  }
}
