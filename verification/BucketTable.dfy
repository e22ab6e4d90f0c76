/**
 The bucket map both limiters keep, with the reservations handed out against it.

 The source writes this part twice, once in each limiter class; the two copies agree, so it is stated
 once here and `ApiAuthGuard` and `OpsLoginGuard` add what differs: the process-wide counters and the
 order of the checks. A JavaScript `Map` is its keys in insertion order and the values under them.
 A reservation's closure is an object holding the variables it captured.
 */
module Buckets {
  import opened Collections
  import opened SlidingWindow

  const OVERFLOW_FINGERPRINT := "__bounded_overflow__"
  const PRUNE_BATCH := 32

  class AttemptBucket {
    var invalidAttemptTimes: seq<int>
    var inFlight: int

    constructor ()
      ensures invalidAttemptTimes == [] && inFlight == 0
    {
      invalidAttemptTimes, inFlight := [], 0;
    }

    /** Nothing left in the window that opens at `cutoff` and nothing in flight. */
    predicate Idle(cutoff: int)
      reads this
    {
      inFlight == 0 && After(invalidAttemptTimes, cutoff) == []
    }
  }

  class Reservation {
    const bucket: AttemptBucket
    const key: string
    ghost const id: nat
    var settled: bool

    constructor (bucket: AttemptBucket, key: string, ghost id: nat)
      ensures this.bucket == bucket && this.key == key && this.id == id && !settled
    {
      this.bucket, this.key, this.id, settled := bucket, key, id, false;
    }
  }

  /** `keys` without `key`, in the same order. */
  function Without(keys: seq<string>, key: string): (rest: seq<string>)
    ensures forall k :: k in rest <==> k in keys && k != key
  {
    if keys == [] then []
    else if keys[0] == key then Without(keys[1..], key)
    else [keys[0]] + Without(keys[1..], key)
  }

  lemma {:induction false} WithoutDistinct(keys: seq<string>, key: string)
    requires Distinct(keys)
    ensures Distinct(Without(keys, key))
    ensures |Without(keys, key)| == |keys| - if key in keys then 1 else 0
  {
    if keys != [] {
      var rest := keys[1..];
      assert forall i :: 0 <= i < |rest| ==> rest[i] == keys[i + 1];
      assert keys[0] !in rest;
      WithoutDistinct(rest, key);
    }
  }

  class BucketTable {
    const windowMs: int
    const maxFingerprints: int
    var keys: seq<string>
    var buckets: map<string, AttemptBucket>
    ghost var ledger: Ledger
    ghost var issued: seq<Reservation>

    ghost function TimesAt(key: string): seq<int>
      reads this, buckets.Values
    {
      if key in buckets then buckets[key].invalidAttemptTimes else []
    }

    ghost function InFlightOf(key: string): int
      reads this, buckets.Values
    {
      if key in buckets then buckets[key].inFlight else 0
    }

    ghost function Horizon(): int
      reads this
    {
      ledger.clock - windowMs
    }

    /** The map holds at most `maxFingerprints` entries, and keeps a place free for the overflow one. */
    ghost predicate Bounded()
      reads this
    {
      |keys| <= if OVERFLOW_FINGERPRINT in buckets then maxFingerprints else maxFingerprints - 1
    }

    ghost predicate WellFormed()
      reads this
    {
      && Distinct(keys)
      && (forall k :: k in keys <==> k in buckets)
      && (forall j, k :: j in buckets && k in buckets && j != k ==> buckets[j] != buckets[k])
      && Bounded()
    }

    /** What has been filtered away or deleted was outside every window still to come. */
    ghost predicate Represents(key: string)
      reads this, buckets.Values
    {
      Agrees(TimesAt(key), InFlightOf(key), ledger, OneKey(key), windowMs)
    }

    /** An unsettled reservation still points at the bucket that is stored under its key. */
    ghost predicate Tracked(i: nat)
      requires i < |issued|
      reads this, issued
    {
      var r := issued[i];
      && r.id == i
      && (r.settled <==> i !in ledger.pending)
      && (!r.settled ==> ledger.pending[i].key == r.key && r.key in buckets && buckets[r.key] == r.bucket)
    }

    ghost predicate Valid()
      reads this, buckets.Values, issued
    {
      && WellFormed()
      && ledger.Valid() && ledger.issued == |issued|
      && (forall k: string :: Represents(k))
      && (forall i: nat :: i < |issued| ==> Tracked(i))
    }

    ghost predicate Issued(r: Reservation)
      reads this
    {
      r.id < |issued| && issued[r.id] == r
    }

    constructor (windowMs: int, maxFingerprints: int, ghost clock: int)
      requires 2 <= maxFingerprints
      ensures Valid() && ledger == Empty(clock) && keys == [] && issued == []
      ensures this.windowMs == windowMs && this.maxFingerprints == maxFingerprints
      ensures buckets == map[]
    {
      this.windowMs, this.maxFingerprints := windowMs, maxFingerprints;
      keys, buckets, ledger, issued := [], map[], Empty(clock), [];
      new;
      forall k: string
        ensures Represents(k)
      {
        assert Held(map[], OneKey(k)) == {};
      }
    }

    method Delete(key: string)
      requires Distinct(keys)
      modifies this`keys, this`buckets
      ensures keys == Without(old(keys), key) && buckets == old(buckets) - {key}
    {
      keys, buckets := Without(keys, key), buckets - {key};
    }

    /** An empty bucket says no more than a missing one. */
    method DropIdle(key: string)
      requires Valid() && key in buckets
      requires buckets[key].inFlight == 0 && buckets[key].invalidAttemptTimes == []
      modifies this`keys, this`buckets
      ensures Valid()
      ensures keys == Without(old(keys), key) && buckets == old(buckets) - {key}
    {
      WithoutDistinct(keys, key);
      assert Represents(key);
      assert Held(ledger.pending, OneKey(key)) == {};
      assert forall id <- ledger.pending :: id !in Held(ledger.pending, OneKey(key));
      label start:
      Delete(key);
      forall k: string
        ensures Represents(k)
      {
        assert old@start(Represents(k));
      }
      forall i: nat | i < |issued|
        ensures Tracked(i)
      {
        assert old@start(Tracked(i));
      }
    }

    /** Filters the bucket under `key` and drops it when nothing is left of it. */
    method PruneOne(key: string, now: int)
      requires Valid() && key in buckets && now <= ledger.clock
      modifies this`keys, this`buckets, {buckets[key]}`invalidAttemptTimes
      ensures Valid()
      ensures old(buckets[key].Idle(now - windowMs)) ==>
        keys == Without(old(keys), key) && buckets == old(buckets) - {key}
      ensures !old(buckets[key].Idle(now - windowMs)) ==> keys == old(keys) && buckets == old(buckets)
      ensures old(buckets)[key].invalidAttemptTimes == After(old(buckets[key].invalidAttemptTimes), now - windowMs)
    {
      var bucket := buckets[key];
      var before := bucket.invalidAttemptTimes;
      assert Represents(key);
      bucket.invalidAttemptTimes := After(before, now - windowMs);
      AgreesFilter(before, bucket.inFlight, ledger, OneKey(key), windowMs, now);
      forall k: string
        ensures Represents(k)
      {
        assert old(Represents(k));
      }
      forall i: nat | i < |issued|
        ensures Tracked(i)
      {
        assert old(Tracked(i));
      }
      if bucket.inFlight == 0 && bucket.invalidAttemptTimes == [] {
        DropIdle(key);
      }
    }

    /** As the clock moves on, what the map already forgot stays outside every later window. */
    ghost method Tick(now: int)
      requires Valid()
      modifies this`ledger
      ensures Valid() && ledger == Observe(old(ledger), now)
    {
      ledger := Observe(ledger, now);
      forall k: string
        ensures Represents(k)
      {
        assert old(Represents(k));
        AgreesObserve(TimesAt(k), InFlightOf(k), old(ledger), OneKey(k), windowMs, now);
      }
      forall i: nat | i < |issued|
        ensures Tracked(i)
      {
        assert old(Tracked(i));
      }
    }

    ghost function IdleKeys(cutoff: int): set<string>
      reads this, buckets.Values
    {
      set k | k in buckets && buckets[k].Idle(cutoff)
    }

    /** What pruning leaves: of the oldest batch of entries, those that are idle go. */
    ghost function AfterPruning(now: int): map<string, AttemptBucket>
      reads this, buckets.Values
    {
      buckets - (First(keys, Batch(|keys|)) * IdleKeys(now - windowMs))
    }

    /** Gone is what is among the 32 oldest, has nothing in flight and no attempt after the cutoff. */
    lemma PruningDrops(now: int, key: string)
      requires key in buckets
      ensures key !in AfterPruning(now) <==>
        && (exists i :: 0 <= i < |keys| && i < 32 && keys[i] == key) && buckets[key].inFlight == 0
        && forall i :: 0 <= i < |TimesAt(key)| ==> TimesAt(key)[i] <= now - windowMs
      ensures key in AfterPruning(now) ==> AfterPruning(now)[key] == buckets[key]
    {
      NothingAfter(TimesAt(key), now - windowMs);
      hide After;
      var n := Batch(|keys|);
      assert key in First(keys, n) <==> exists i :: 0 <= i < n && keys[i] == key by {
        if key in First(keys, n) {
          var i :| 0 <= i < |keys[..n]| && keys[..n][i] == key;
          assert keys[i] == key;
        }
        if i :| 0 <= i < n && keys[i] == key {
          assert keys[..n][i] == key;
        }
      }
    }

    ghost predicate KnowsIdle(idle: set<string>, visited: set<string>, cutoff: int)
      reads this, buckets.Values
    {
      forall k :: k in buckets && k !in visited ==> (k in idle <==> buckets[k].Idle(cutoff))
    }

    /** Where `pruneOldBuckets` stands after `checked` entries of the map `all` it started from. */
    ghost predicate Pruned(
      all: map<string, AttemptBucket>, order: seq<string>, idle: set<string>, checked: nat, cutoff: int)
      reads this, buckets.Values
    {
      && checked <= |order| && Distinct(order) && (forall k <- order :: k in all)
      && buckets == all - (First(order, checked) * idle)
      && KnowsIdle(idle, First(order, checked), cutoff)
      && keys == Kept(order, buckets.Keys)
    }

    lemma NothingPruned(cutoff: int)
      requires WellFormed()
      ensures Pruned(buckets, keys, IdleKeys(cutoff), 0, cutoff)
    {
      hide Kept, After;
      KeptAll(keys, buckets.Keys);
      assert First(keys, 0) * IdleKeys(cutoff) == {};
    }

    method PruneNext(
      now: int, ghost all: map<string, AttemptBucket>, order: seq<string>, ghost idle: set<string>, checked: nat)
      requires Valid() && now <= ledger.clock
      requires Pruned(all, order, idle, checked, now - windowMs) && checked < |order|
      modifies this`keys, this`buckets, all.Values`invalidAttemptTimes
      ensures Valid() && Pruned(all, order, idle, checked + 1, now - windowMs)
    {
      var key := order[checked];
      FirstStep(order, checked);
      assert key in buckets;
      KeptWithout(order, buckets.Keys, key);
      OneFewer(all, First(order, checked), idle, key);
      PruneOne(key, now);
    }

    method PruneBatch(now: int, ghost all: map<string, AttemptBucket>, order: seq<string>, ghost idle: set<string>)
      requires Valid() && now <= ledger.clock && Pruned(all, order, idle, 0, now - windowMs)
      modifies this`keys, this`buckets, all.Values`invalidAttemptTimes
      ensures Valid() && Pruned(all, order, idle, Batch(|order|), now - windowMs)
    {
      var checked := 0;
      while checked < |order| && checked < PRUNE_BATCH
        invariant checked <= Batch(|order|)
        invariant Valid() && Pruned(all, order, idle, checked, now - windowMs)
      {
        PruneNext(now, all, order, idle, checked);
        checked := checked + 1;
      }
    }

    /** Of the oldest batch of entries, those with nothing left in them go. */
    method PruneOldest(now: int)
      requires Valid() && now <= ledger.clock
      modifies this`keys, this`buckets, buckets.Values`invalidAttemptTimes
      ensures Valid()
      ensures buckets == old(AfterPruning(now))
      ensures keys == Kept(old(keys), buckets.Keys)
    {
      NothingPruned(now - windowMs);
      PruneBatch(now, buckets, keys, IdleKeys(now - windowMs));
    }

    /** `pruneOldBuckets` */
    method Prune(now: int)
      requires Valid()
      modifies this`keys, this`buckets, this`ledger, buckets.Values`invalidAttemptTimes
      ensures Valid()
      ensures ledger == Observe(old(ledger), now)
      ensures buckets == old(AfterPruning(now))
      ensures keys == Kept(old(keys), buckets.Keys)
    {
      Tick(now);
      PruneOldest(now);
    }

    /** A new fingerprint gets its own bucket while there is room for one, else the shared one. */
    function KeyFor(fingerprint: string): string
      reads this
    {
      if fingerprint in buckets || |keys| < maxFingerprints - 1 then fingerprint else OVERFLOW_FINGERPRINT
    }

    /** The bucket a reservation for `key` would count against, filtered to the window of `now`. */
    method Select(key: string, now: int) returns (bucket: AttemptBucket)
      requires Valid() && now <= ledger.clock
      modifies buckets.Values`invalidAttemptTimes
      ensures Valid()
      ensures if key in buckets then bucket == buckets[key] else
                fresh(bucket) && bucket.inFlight == 0 && bucket.invalidAttemptTimes == []
      ensures bucket.invalidAttemptTimes == After(old(TimesAt(key)), now - windowMs)
      ensures bucket.inFlight == InFlight(ledger.pending, OneKey(key))
      ensures now == ledger.clock ==>
        bucket.invalidAttemptTimes == After(TimesOf(ledger.marks, OneKey(key)), now - windowMs)
    {
      hide After, TimesOf, InFlight;
      AfterNothing(now - windowMs);
      assert Represents(key);
      if key in buckets {
        bucket := buckets[key];
      } else {
        bucket := new AttemptBucket();
      }
      AgreesFilter(bucket.invalidAttemptTimes, bucket.inFlight, ledger, OneKey(key), windowMs, now);
      bucket.invalidAttemptTimes := After(bucket.invalidAttemptTimes, now - windowMs);
      forall k: string
        ensures Represents(k)
      {
        assert old(Represents(k));
      }
      forall i: nat | i < |issued|
        ensures Tracked(i)
      {
        assert old(Tracked(i));
      }
    }

    /** Counts a reservation and moves its bucket to the young end of the map. */
    method Take(key: string, bucket: AttemptBucket, now: int) returns (r: Reservation)
      requires Valid()
      requires if key in buckets then bucket == buckets[key] else
                 && bucket !in buckets.Values && bucket.inFlight == 0 && bucket.invalidAttemptTimes == []
                 && (|keys| < maxFingerprints - 1 || key == OVERFLOW_FINGERPRINT)
      modifies this, bucket`inFlight
      ensures Valid()
      ensures ledger == Admit(old(ledger), key, now)
      ensures keys == Without(old(keys), key) + [key] && buckets == old(buckets)[key := bucket]
      ensures fresh(r) && issued == old(issued) + [r]
      ensures r.id == old(|issued|) && r.key == key && r.bucket == bucket && !r.settled
    {
      Store(key, bucket);
      r := Hold(key, now);
    }

    /** `delete` then `set`: the entry moves to the young end. An empty bucket changes no count. */
    method Store(key: string, bucket: AttemptBucket)
      requires Valid()
      requires if key in buckets then bucket == buckets[key] else
                 && bucket !in buckets.Values && bucket.inFlight == 0 && bucket.invalidAttemptTimes == []
                 && (|keys| < maxFingerprints - 1 || key == OVERFLOW_FINGERPRINT)
      modifies this`keys, this`buckets
      ensures Valid()
      ensures keys == Without(old(keys), key) + [key] && buckets == old(buckets)[key := bucket]
    {
      WithoutDistinct(keys, key);
      keys, buckets := Without(keys, key) + [key], buckets[key := bucket];
      forall k: string
        ensures Represents(k)
      {
        assert old(Represents(k));
      }
      forall i: nat | i < |issued|
        ensures Tracked(i)
      {
        assert old(Tracked(i));
      }
    }

    method Hold(key: string, now: int) returns (r: Reservation)
      requires Valid() && key in buckets
      modifies this`ledger, this`issued, {buckets[key]}`inFlight
      ensures Valid()
      ensures ledger == Admit(old(ledger), key, now)
      ensures fresh(r) && issued == old(issued) + [r]
      ensures r.id == old(|issued|) && r.key == key && r.bucket == buckets[key] && !r.settled
    {
      ghost var before := ledger;
      var bucket := buckets[key];
      bucket.inFlight := bucket.inFlight + 1;
      r := new Reservation(bucket, key, |issued|);
      issued, ledger := issued + [r], Admit(ledger, key, now);
      forall k: string
        ensures Represents(k)
      {
        assert old(Represents(k));
        AgreesAdmit(old(TimesAt(k)), old(InFlightOf(k)), before, OneKey(k), windowMs, key, now);
      }
      forall i: nat | i < |issued|
        ensures Tracked(i)
      {
        if i < |issued| - 1 {
          assert old(Tracked(i));
        }
      }
    }

    method Unhold(r: Reservation)
      requires Valid() && Issued(r) && !r.settled
      modifies this`ledger, r`settled, r.bucket`inFlight
      ensures Valid() && r.settled && r.id in old(ledger.pending)
      ensures r.key in buckets && buckets[r.key] == r.bucket && old(ledger.pending[r.id]).key == r.key
      ensures old(r.bucket.inFlight) >= 1 && r.bucket.inFlight == old(r.bucket.inFlight) - 1
      ensures ledger == Release(old(ledger), r.id)
    {
      ghost var id, before := r.id, ledger;
      assert Tracked(id) && Represents(r.key);
      assert id in Held(before.pending, OneKey(r.key));
      r.settled := true;
      r.bucket.inFlight := if r.bucket.inFlight - 1 < 0 then 0 else r.bucket.inFlight - 1;
      ledger := Release(ledger, id);
      forall k: string
        ensures Represents(k)
      {
        assert old(Represents(k));
        AgreesRelease(old(TimesAt(k)), old(InFlightOf(k)), before, OneKey(k), windowMs, id);
      }
      forall i: nat | i < |issued|
        ensures Tracked(i)
      {
        assert old(Tracked(i));
      }
    }

    method RecordAttempt(key: string, settledAt: int)
      requires Valid() && key in buckets
      modifies this`ledger, {buckets[key]}`invalidAttemptTimes
      ensures Valid()
      ensures ledger == Record(old(ledger), Mark(key, settledAt))
      ensures buckets[key].invalidAttemptTimes == old(buckets[key].invalidAttemptTimes) + [settledAt]
    {
      ghost var before := ledger;
      var bucket := buckets[key];
      bucket.invalidAttemptTimes := bucket.invalidAttemptTimes + [settledAt];
      ledger := Record(ledger, Mark(key, settledAt));
      forall k: string
        ensures Represents(k)
      {
        assert old(Represents(k));
        AgreesRecord(old(TimesAt(k)), InFlightOf(k), before, OneKey(k), windowMs, Mark(key, settledAt));
      }
      forall i: nat | i < |issued|
        ensures Tracked(i)
      {
        assert old(Tracked(i));
      }
    }

    /**
     The first call of a reservation's closure. Neither `Math.max(0, ...)` of the source ever has to
     hold a count up.
     */
    method Close(r: Reservation, invalid: bool, settledAt: int)
      requires Valid() && Issued(r) && !r.settled
      modifies this`keys, this`buckets, this`ledger, r`settled, r.bucket
      ensures Valid() && r.settled
      ensures r.id in old(ledger.pending)
      ensures ledger == Settled(old(ledger), r.id, invalid, settledAt)
      ensures old(r.bucket.inFlight) >= 1 && r.bucket.inFlight == old(r.bucket.inFlight) - 1
      ensures if r.bucket.inFlight == 0 && r.bucket.invalidAttemptTimes == []
        then buckets == old(buckets) - {r.key} && keys == Without(old(keys), r.key)
        else buckets == old(buckets) && keys == old(keys)
    {
      Unhold(r);
      if invalid {
        RecordAttempt(r.key, settledAt);
      }
      if r.bucket.inFlight == 0 && r.bucket.invalidAttemptTimes == [] {
        DropIdle(r.key);
      }
    }

    // ---- Totals ----

    ghost function InFlightTotal(keys: seq<string>): int
      reads this, buckets.Values
    {
      if keys == [] then 0 else InFlightTotal(keys[1..]) + InFlightOf(keys[0])
    }

    ghost function RecentTotal(keys: seq<string>): nat
      reads this, buckets.Values
    {
      if keys == [] then 0 else RecentTotal(keys[1..]) + |After(TimesAt(keys[0]), Horizon())|
    }

    lemma {:induction false} TotalsMatchLedger(some: seq<string>)
      requires Valid()
      ensures InFlightTotal(some) == InFlightSum(some, ledger.pending)
      ensures RecentTotal(some) == RecentSum(some, ledger.marks, Horizon())
    {
      if some != [] {
        TotalsMatchLedger(some[1..]);
        assert Represents(some[0]);
      }
    }

    /** What is counted for the whole process is counted once, in exactly one bucket. */
    lemma TotalsAreComplete()
      requires Valid()
      ensures InFlightTotal(keys) == InFlight(ledger.pending, AllKeys)
      ensures RecentTotal(keys) == |After(TimesOf(ledger.marks, AllKeys), Horizon())|
    {
      TotalsMatchLedger(keys);
      forall id <- ledger.pending
        ensures ledger.pending[id].key in keys
      {
        assert Tracked(id);
      }
      InFlightIsSumOverKeys(keys, ledger.pending);
      forall k | k !in keys
        ensures After(TimesOf(ledger.marks, OneKey(k)), Horizon()) == []
      {
        assert Represents(k);
      }
      RecentIsSumOverKeys(keys, ledger.marks, Horizon());
    }

    /** When every reservation has been settled nothing is left in flight anywhere. */
    lemma Quiescent()
      requires Valid()
      requires forall r <- issued :: r.settled
      ensures ledger.pending == map[]
      ensures forall k :: k in buckets ==> buckets[k].inFlight == 0
    {
      forall id: nat | id < |issued|
        ensures id !in ledger.pending
      {
        assert Tracked(id);
        assert issued[id] in issued;
      }
      forall k | k in buckets
        ensures buckets[k].inFlight == 0
      {
        assert Represents(k);
        assert Held(ledger.pending, OneKey(k)) == {};
      }
    }
  }

  lemma {:induction false} NothingAfter(times: seq<int>, cutoff: int)
    ensures After(times, cutoff) == [] <==> forall i :: 0 <= i < |times| ==> times[i] <= cutoff
  {
    if times != [] {
      NothingAfter(times[..|times| - 1], cutoff);
    }
  }

  ghost function First(keys: seq<string>, n: nat): set<string>
    requires n <= |keys|
  {
    set k | k in keys[..n]
  }

  lemma OneFewer<V>(all: map<string, V>, visited: set<string>, idle: set<string>, key: string)
    ensures all - ((visited + {key}) * idle)
         == if key in idle then all - (visited * idle) - {key} else all - (visited * idle)
  {}

  lemma FirstStep(keys: seq<string>, n: nat)
    requires Distinct(keys) && n < |keys|
    ensures First(keys, n + 1) == First(keys, n) + {keys[n]}
    ensures keys[n] !in First(keys, n)
  {
    assert keys[..n + 1] == keys[..n] + [keys[n]];
  }

  function Batch(size: nat): nat {
    if size < PRUNE_BATCH then size else PRUNE_BATCH
  }

  /** The keys of `keys` that are in `live`, in the same order. */
  function Kept(keys: seq<string>, live: set<string>): seq<string> {
    if keys == [] then []
    else (if keys[0] in live then [keys[0]] else []) + Kept(keys[1..], live)
  }

  lemma {:induction false} KeptAll(keys: seq<string>, live: set<string>)
    requires forall k <- keys :: k in live
    ensures Kept(keys, live) == keys
  {
    if keys != [] {
      KeptAll(keys[1..], live);
    }
  }

  lemma {:induction false} KeptWithout(keys: seq<string>, live: set<string>, key: string)
    ensures Without(Kept(keys, live), key) == Kept(keys, live - {key})
  {
    if keys != [] {
      KeptWithout(keys[1..], live, key);
      var rest := Kept(keys[1..], live);
      assert ([keys[0]] + rest)[1..] == rest && [] + rest == rest;
      assert [] + Kept(keys[1..], live - {key}) == Kept(keys[1..], live - {key});
    }
  }
}
