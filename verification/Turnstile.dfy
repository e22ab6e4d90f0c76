/**
 The replay cache in front of Turnstile verification, as a concurrent protocol.

 `verify` waits twice, for the answer and for its text, so it runs as two atomic steps: `Start`
 checks the cache and claims the digest, `Finish` judges the answer, accepts and gives the claim up.
 Any number of verifications are between their two steps at once.

 The main result is `AcceptedAgainOnlyAfterEviction`: over every interleaving, a token accepted
 twice had at least `MAX_TRACKED_TOKENS - 1` other tokens accepted in between. The bound is exact:
 `ReplayAfterEviction` gives the run in which that many others are enough.
 */
module Turnstile {
  import opened Collections
  import opened Wrappers

  const TURNSTILE_TOKEN_LIFETIME_MS := 300_000
  const MAX_TRACKED_TOKENS := 4_096

  /** A hash digest is never empty. */
  type Digest = s: string | |s| > 0 witness "0"

  datatype Entry = Entry(digest: Digest, expiresAt: int)

  /** What the verification service said; `None` for a challenge time that is no date. */
  datatype Response =
    | Unusable
    | Verdict(challengedAt: Option<int>, hostnameAllowed: bool, actionMatches: bool)

  /**
   `accepted` is the Map in insertion order and `pending` the Set. `running` and `log` are not kept by
   the program: the verifications between their two steps, and every acceptance so far.
   */
  datatype State = State(
    accepted: seq<Entry>, pending: set<Digest>, running: multiset<Digest>, log: seq<Digest>, clock: int)

  // ---- The cache ----

  function Digests(entries: seq<Entry>): set<Digest> {
    if entries == [] then {} else {entries[0].digest} + Digests(entries[1..])
  }

  /** The entries that have not expired at `now`. */
  function Live(entries: seq<Entry>, now: int): seq<Entry> {
    if entries == [] then []
    else (if entries[0].expiresAt <= now then [] else [entries[0]]) + Live(entries[1..], now)
  }

  /** Dropping the oldest entry until there is room for one more. */
  function Evicted(entries: seq<Entry>): (rest: seq<Entry>)
    ensures |rest| < MAX_TRACKED_TOKENS
  {
    if |entries| >= MAX_TRACKED_TOKENS then Evicted(entries[1..]) else entries
  }

  function Pruned(entries: seq<Entry>, now: int): seq<Entry> {
    Evicted(Live(entries, now))
  }

  /** `Map.set`: a digest that is there keeps its place. */
  function Put(entries: seq<Entry>, entry: Entry): seq<Entry> {
    if entries == [] then [entry]
    else if entries[0].digest == entry.digest then [entry] + entries[1..]
    else [entries[0]] + Put(entries[1..], entry)
  }

  predicate IsValid(response: Response, now: int) {
    && response.Verdict?
    && response.challengedAt.Some?
    && 0 <= now - response.challengedAt.value < TURNSTILE_TOKEN_LIFETIME_MS
    && response.hostnameAllowed
    && response.actionMatches
  }

  // ---- The two steps ----

  predicate Admits(s: State, digest: Digest) {
    && digest !in Digests(s.accepted)
    && digest !in s.pending
    && |s.pending| < MAX_TRACKED_TOKENS
  }

  function Prune(s: State, now: int): State {
    s.(accepted := Pruned(s.accepted, now), clock := if now > s.clock then now else s.clock)
  }

  function StartStep(s: State, digest: Digest, now: int): State {
    var p := Prune(s, now);
    if Admits(p, digest) then p.(pending := p.pending + {digest}, running := p.running + multiset{digest}) else p
  }

  function FinishStep(s: State, digest: Digest, response: Response, now: int): State {
    var done := s.(
      pending := s.pending - {digest},
      running := s.running - multiset{digest},
      clock := if response.Verdict? && now > s.clock then now else s.clock);
    if IsValid(response, now) then
      done.(
        accepted := Put(s.accepted, Entry(digest, response.challengedAt.value + TURNSTILE_TOKEN_LIFETIME_MS)),
        log := s.log + [digest])
    else done
  }

  // ---- Runs ----

  datatype Event =
    | Started(digest: Digest, now: int)
    | Finished(digest: Digest, response: Response, now: int)

  function Initial(clock: int): State {
    State([], {}, multiset{}, [], clock)
  }

  function Step(s: State, e: Event): State {
    match e
    case Started(digest, now) => StartStep(s, digest, now)
    case Finished(digest, response, now) => FinishStep(s, digest, response, now)
  }

  function Run(start: State, events: seq<Event>): State {
    if events == [] then start else Step(Run(start, events[..|events| - 1]), events[|events| - 1])
  }

  /**
   A step that can happen: the clock does not go back, only a verification that passed the guard
   finishes, and the service always reports the same challenge time for one token.
   */
  predicate CanHappen(challenge: Digest -> int, s: State, e: Event) {
    match e
    case Started(_, now) => s.clock <= now
    case Finished(digest, response, now) =>
      && digest in s.running
      && (response.Verdict? ==>
            s.clock <= now && (response.challengedAt.Some? ==> response.challengedAt.value == challenge(digest)))
  }

  predicate RunCanHappen(challenge: Digest -> int, start: State, events: seq<Event>) {
    if events == [] then true
    else
      var before := events[..|events| - 1];
      RunCanHappen(challenge, start, before) && CanHappen(challenge, Run(start, before), events[|events| - 1])
  }

  // ---- The invariant ----

  ghost predicate DistinctDigests(entries: seq<Entry>) {
    entries == [] || (entries[0].digest !in Digests(entries[1..]) && DistinctDigests(entries[1..]))
  }

  /** The digests accepted into the map after `digest`. */
  function Behind(entries: seq<Entry>, digest: Digest): set<Digest> {
    if entries == [] then {}
    else if entries[0].digest == digest then Digests(entries[1..])
    else Behind(entries[1..], digest)
  }

  function Members(log: seq<Digest>): set<Digest> {
    set d | d in log
  }

  function Others(log: seq<Digest>, i: nat, j: nat): set<Digest>
    requires i < j <= |log|
  {
    Members(log[i + 1..j]) - {log[i]}
  }

  /** Why an accepted token is not accepted again yet: it is tracked, too old, or was evicted. */
  ghost predicate Shut(entries: seq<Entry>, clock: int, d: Digest, expiry: int, others: set<Digest>) {
    || (d in Digests(entries) && Behind(entries, d) <= others)
    || expiry <= clock
    || |others| >= MAX_TRACKED_TOKENS - 1
  }

  ghost predicate Guarded(challenge: Digest -> int, s: State, i: nat)
    requires i < |s.log|
  {
    Shut(s.accepted, s.clock, s.log[i], challenge(s.log[i]) + TURNSTILE_TOKEN_LIFETIME_MS, Others(s.log, i, |s.log|))
  }

  ghost predicate NoEarlyReplay(log: seq<Digest>) {
    forall i: nat, j: nat :: i < j < |log| && log[i] == log[j] ==> |Others(log, i, j)| >= MAX_TRACKED_TOKENS - 1
  }

  /** The map and the set are disjoint, and one verification at most is past the guard per digest. */
  ghost predicate Consistent(s: State) {
    && DistinctDigests(s.accepted)
    && Digests(s.accepted) !! s.pending
    && s.running == multiset(s.pending)
    && |s.pending| <= MAX_TRACKED_TOKENS
    && |s.accepted| + |s.pending| <= 2 * MAX_TRACKED_TOKENS - 1
  }

  ghost predicate Inv(challenge: Digest -> int, s: State) {
    && Consistent(s)
    && (forall e <- s.accepted :: e.expiresAt == challenge(e.digest) + TURNSTILE_TOKEN_LIFETIME_MS)
    && (forall i: nat :: i < |s.log| ==> Guarded(challenge, s, i))
    && NoEarlyReplay(s.log)
  }

  // ---- What pruning keeps ----

  lemma {:induction false} LiveKeeps(entries: seq<Entry>, now: int)
    requires DistinctDigests(entries)
    ensures DistinctDigests(Live(entries, now)) && Digests(Live(entries, now)) <= Digests(entries)
    ensures |Live(entries, now)| <= |entries|
  {
    if entries != [] {
      LiveKeeps(entries[1..], now);
      var live := Live(entries[1..], now);
      assert ([entries[0]] + live)[1..] == live && [] + live == live;
    }
  }

  /** An entry either survives, with fewer digests behind it, or has expired. */
  lemma {:induction false} LiveBehind(entries: seq<Entry>, now: int, d: Digest, expiry: int)
    requires DistinctDigests(entries) && d in Digests(entries)
    requires forall e <- entries :: e.digest == d ==> e.expiresAt == expiry
    ensures expiry <= now || (d in Digests(Live(entries, now)) && Behind(Live(entries, now), d) <= Behind(entries, d))
  {
    var rest := entries[1..];
    var live := Live(rest, now);
    assert ([entries[0]] + live)[1..] == live && [] + live == live;
    LiveKeeps(rest, now);
    if entries[0].digest != d {
      LiveBehind(rest, now, d, expiry);
    }
  }

  lemma {:induction false} EvictedKeeps(entries: seq<Entry>)
    requires DistinctDigests(entries)
    ensures DistinctDigests(Evicted(entries)) && Digests(Evicted(entries)) <= Digests(entries)
    ensures |Evicted(entries)| <= |entries|
    decreases |entries|
  {
    if |entries| >= MAX_TRACKED_TOKENS {
      EvictedKeeps(entries[1..]);
    }
  }

  lemma {:induction false} DigestCount(entries: seq<Entry>)
    requires DistinctDigests(entries)
    ensures |Digests(entries)| == |entries|
  {
    if entries != [] {
      DigestCount(entries[1..]);
    }
  }

  lemma {:induction false} BehindMembers(entries: seq<Entry>, d: Digest)
    requires DistinctDigests(entries) && d in Digests(entries)
    ensures d !in Behind(entries, d) && Behind(entries, d) <= Digests(entries)
  {
    if entries[0].digest != d {
      BehindMembers(entries[1..], d);
    }
  }

  /** An entry is evicted only when a full cache less one came in behind it. */
  lemma {:induction false} EvictedBehind(entries: seq<Entry>, d: Digest)
    requires DistinctDigests(entries) && d in Digests(entries)
    ensures (d in Digests(Evicted(entries)) && Behind(Evicted(entries), d) == Behind(entries, d))
         || |Behind(entries, d)| >= MAX_TRACKED_TOKENS - 1
    decreases |entries|
  {
    if |entries| >= MAX_TRACKED_TOKENS {
      if entries[0].digest == d {
        DigestCount(entries[1..]);
      } else {
        EvictedBehind(entries[1..], d);
      }
    }
  }

  /** What is in a pruned map was in the map. */
  lemma {:induction false} LiveElements(entries: seq<Entry>, now: int)
    ensures forall e :: e in Live(entries, now) <==> e in entries && e.expiresAt > now
  {
    if entries != [] {
      LiveElements(entries[1..], now);
    }
  }

  lemma {:induction false} EvictedElements(entries: seq<Entry>)
    ensures forall e :: e in Evicted(entries) ==> e in entries
    decreases |entries|
  {
    if |entries| >= MAX_TRACKED_TOKENS {
      EvictedElements(entries[1..]);
    }
  }

  lemma {:induction false} PutAppends(entries: seq<Entry>, entry: Entry)
    requires entry.digest !in Digests(entries)
    ensures Put(entries, entry) == entries + [entry]
  {
    if entries != [] {
      PutAppends(entries[1..], entry);
    }
  }

  lemma {:induction false} AppendKeeps(entries: seq<Entry>, entry: Entry)
    requires DistinctDigests(entries) && entry.digest !in Digests(entries)
    ensures DistinctDigests(entries + [entry])
    ensures Digests(entries + [entry]) == Digests(entries) + {entry.digest}
  {
    if entries != [] {
      AppendKeeps(entries[1..], entry);
      assert (entries + [entry])[1..] == entries[1..] + [entry];
    } else {
      assert [entry][1..] == [];
    }
  }

  lemma {:induction false} AppendBehind(entries: seq<Entry>, entry: Entry, d: Digest)
    requires DistinctDigests(entries) && entry.digest !in Digests(entries)
    ensures d in Digests(entries) ==> Behind(entries + [entry], d) == Behind(entries, d) + {entry.digest}
    ensures d == entry.digest ==> Behind(entries + [entry], d) == {}
  {
    if entries != [] {
      AppendBehind(entries[1..], entry, d);
      AppendKeeps(entries[1..], entry);
      assert (entries + [entry])[1..] == entries[1..] + [entry];
    } else {
      assert [entry][1..] == [];
    }
  }

  lemma PruneConsistent(s: State, now: int)
    requires Consistent(s)
    ensures Consistent(Prune(s, now)) && |Prune(s, now).accepted| < MAX_TRACKED_TOKENS
  {
    LiveKeeps(s.accepted, now);
    EvictedKeeps(Live(s.accepted, now));
  }

  lemma PruneShut(entries: seq<Entry>, clock: int, d: Digest, expiry: int, others: set<Digest>, now: int)
    requires DistinctDigests(entries) && clock <= now
    requires forall e <- entries :: e.digest == d ==> e.expiresAt == expiry
    requires Shut(entries, clock, d, expiry, others)
    ensures Shut(Pruned(entries, now), now, d, expiry, others)
  {
    if d in Digests(entries) && Behind(entries, d) <= others && now < expiry {
      var live := Live(entries, now);
      LiveKeeps(entries, now);
      LiveBehind(entries, now, d, expiry);
      EvictedBehind(live, d);
      CardinalityMonotone(Behind(live, d), others);
    }
  }

  lemma StartConsistent(s: State, digest: Digest, now: int)
    requires Consistent(s)
    ensures Consistent(StartStep(s, digest, now))
  {
    PruneConsistent(s, now);
    var p := Prune(s, now);
    if Admits(p, digest) {
      assert multiset(p.pending + {digest}) == multiset(p.pending) + multiset{digest};
    }
  }

  lemma StartKeepsInv(challenge: Digest -> int, s: State, digest: Digest, now: int)
    requires Inv(challenge, s) && s.clock <= now
    ensures Inv(challenge, StartStep(s, digest, now))
  {
    StartConsistent(s, digest, now);
    LiveElements(s.accepted, now);
    EvictedElements(Live(s.accepted, now));
    var s' := StartStep(s, digest, now);
    assert s'.accepted == Pruned(s.accepted, now) && s'.clock == now && s'.log == s.log;
    forall i: nat | i < |s'.log|
      ensures Guarded(challenge, s', i)
    {
      assert Guarded(challenge, s, i);
      var expiry := challenge(s.log[i]) + TURNSTILE_TOKEN_LIFETIME_MS;
      PruneShut(s.accepted, s.clock, s.log[i], expiry, Others(s.log, i, |s.log|), now);
    }
  }

  lemma FinishConsistent(s: State, digest: Digest, response: Response, now: int)
    requires Consistent(s) && digest in s.running
    ensures Consistent(FinishStep(s, digest, response, now))
    ensures digest in s.pending
    ensures IsValid(response, now) ==>
      && digest !in Digests(s.accepted)
      && FinishStep(s, digest, response, now).accepted
           == s.accepted + [Entry(digest, response.challengedAt.value + TURNSTILE_TOKEN_LIFETIME_MS)]
  {
    hide Put, DistinctDigests, Digests;
    assert digest in s.pending;
    assert multiset(s.pending - {digest}) == multiset(s.pending) - multiset{digest};
    if IsValid(response, now) {
      var entry := Entry(digest, response.challengedAt.value + TURNSTILE_TOKEN_LIFETIME_MS);
      PutAppends(s.accepted, entry);
      AppendKeeps(s.accepted, entry);
    }
  }

  lemma OthersGrow(log: seq<Digest>, d: Digest, i: nat)
    requires i < |log|
    ensures Others(log + [d], i, |log| + 1) == (Others(log, i, |log|) + {d}) - {log[i]}
  {
    assert (log + [d])[i + 1..|log| + 1] == log[i + 1..|log|] + [d];
    assert Members(log[i + 1..|log|] + [d]) == Members(log[i + 1..|log|]) + {d};
  }

  lemma OthersStay(log: seq<Digest>, d: Digest, i: nat, j: nat)
    requires i < j <= |log|
    ensures Others(log + [d], i, j) == Others(log, i, j)
  {
    assert (log + [d])[i + 1..j] == log[i + 1..j];
  }

  /** The heart of the matter: an old acceptance of `d` still guards it, so a new one needs evictions. */
  lemma AcceptNeedsEviction(challenge: Digest -> int, s: State, e: Event, i: nat)
    requires Inv(challenge, s) && CanHappen(challenge, s, e)
    requires e.Finished? && IsValid(e.response, e.now) && i < |s.log| && s.log[i] == e.digest
    ensures |Others(s.log, i, |s.log|)| >= MAX_TRACKED_TOKENS - 1
  {
    assert Guarded(challenge, s, i);
    assert e.digest in s.pending;
  }

  lemma AcceptShut(entries: seq<Entry>, clock: int, d: Digest, expiry: int, others: set<Digest>, entry: Entry)
    requires DistinctDigests(entries) && entry.digest !in Digests(entries) && entry.digest != d && d !in others
    requires Shut(entries, clock, d, expiry, others)
    ensures Shut(entries + [entry], clock, d, expiry, (others + {entry.digest}) - {d})
  {
    AppendKeeps(entries, entry);
    AppendBehind(entries, entry, d);
    assert (others + {entry.digest}) - {d} == others + {entry.digest};
    CardinalityMonotone(others, others + {entry.digest});
  }

  lemma NewShut(entries: seq<Entry>, clock: int, expiry: int, others: set<Digest>, entry: Entry)
    requires DistinctDigests(entries) && entry.digest !in Digests(entries)
    ensures Shut(entries + [entry], clock, entry.digest, expiry, others)
  {
    AppendKeeps(entries, entry);
    AppendBehind(entries, entry, entry.digest);
  }

  lemma AcceptGuarded(challenge: Digest -> int, s: State, s': State, entry: Entry, i: nat)
    requires DistinctDigests(s.accepted) && entry.digest !in Digests(s.accepted)
    requires s'.accepted == s.accepted + [entry] && s'.log == s.log + [entry.digest] && s.clock <= s'.clock
    requires i < |s'.log| && (i < |s.log| ==> Guarded(challenge, s, i))
    ensures Guarded(challenge, s', i)
  {
    var d := s'.log[i];
    var expiry := challenge(d) + TURNSTILE_TOKEN_LIFETIME_MS;
    if d == entry.digest {
      NewShut(s.accepted, s'.clock, expiry, Others(s'.log, i, |s'.log|), entry);
    } else {
      var others := Others(s.log, i, |s.log|);
      AcceptShut(s.accepted, s.clock, d, expiry, others, entry);
      assert Others(s'.log, i, |s'.log|) == (others + {entry.digest}) - {d} by {
        OthersGrow(s.log, entry.digest, i);
      }
    }
  }

  lemma AcceptKeepsNoEarlyReplay(challenge: Digest -> int, s: State, e: Event)
    requires Inv(challenge, s) && CanHappen(challenge, s, e)
    requires e.Finished? && IsValid(e.response, e.now)
    ensures NoEarlyReplay(Step(s, e).log)
  {
    var log := s.log + [e.digest];
    forall i: nat, j: nat | i < j < |log| && log[i] == log[j]
      ensures |Others(log, i, j)| >= MAX_TRACKED_TOKENS - 1
    {
      OthersStay(s.log, e.digest, i, j);
      if j == |s.log| {
        AcceptNeedsEviction(challenge, s, e, i);
      }
    }
  }

  lemma StepKeepsInv(challenge: Digest -> int, s: State, e: Event)
    requires Inv(challenge, s) && CanHappen(challenge, s, e)
    ensures Inv(challenge, Step(s, e))
  {
    match e
    case Started(digest, now) => StartKeepsInv(challenge, s, digest, now);
    case Finished(digest, response, now) =>
      FinishConsistent(s, digest, response, now);
      var s' := Step(s, e);
      if IsValid(response, now) {
        AcceptKeepsNoEarlyReplay(challenge, s, e);
      }
      forall i: nat | i < |s'.log|
        ensures Guarded(challenge, s', i)
      {
        if IsValid(response, now) {
          var entry := Entry(digest, response.challengedAt.value + TURNSTILE_TOKEN_LIFETIME_MS);
          assert i < |s.log| ==> Guarded(challenge, s, i);
          AcceptGuarded(challenge, s, s', entry, i);
        } else {
          assert Guarded(challenge, s, i);
        }
      }
  }

  lemma {:induction false} RunKeepsInv(challenge: Digest -> int, clock: int, events: seq<Event>)
    requires RunCanHappen(challenge, Initial(clock), events)
    ensures Inv(challenge, Run(Initial(clock), events))
  {
    if events != [] {
      RunKeepsInv(challenge, clock, events[..|events| - 1]);
      StepKeepsInv(challenge, Run(Initial(clock), events[..|events| - 1]), events[|events| - 1]);
    }
  }

  /** A token is accepted again only after as many others as the cache can track, less one. */
  lemma AcceptedAgainOnlyAfterEviction(challenge: Digest -> int, clock: int, events: seq<Event>)
    requires RunCanHappen(challenge, Initial(clock), events)
    ensures var log := Run(Initial(clock), events).log;
      forall i: nat, j: nat :: i < j < |log| && log[i] == log[j] ==> |Others(log, i, j)| >= 4_095
  {
    RunKeepsInv(challenge, clock, events);
  }

  /** What holds of the map and the set in every state a run reaches. */
  lemma CacheStaysConsistent(challenge: Digest -> int, clock: int, events: seq<Event>)
    requires RunCanHappen(challenge, Initial(clock), events)
    ensures var s := Run(Initial(clock), events);
      && Digests(s.accepted) !! s.pending
      && (forall d :: s.running[d] <= 1)
      && |s.accepted| + |s.pending| <= 2 * 4_096 - 1
  {
    RunKeepsInv(challenge, clock, events);
  }

  // ---- Which tokens are accepted ----

  /** A verdict on a challenge less than five minutes old, for an allowed host and the right action. */
  predicate Passes(e: Event) {
    && e.Finished? && e.response.Verdict? && e.response.challengedAt.Some?
    && 0 <= e.now - e.response.challengedAt.value < 300_000
    && e.response.hostnameAllowed && e.response.actionMatches
  }

  /** The tokens that got such a verdict. */
  function Passed(events: seq<Event>): seq<Digest> {
    if events == [] then []
    else
      var before, e := Passed(events[..|events| - 1]), events[|events| - 1];
      if Passes(e) then before + [e.digest] else before
  }

  /** Over every run, these are the acceptances, in order. */
  lemma {:induction false} AcceptsThePassed(clock: int, events: seq<Event>)
    ensures Run(Initial(clock), events).log == Passed(events)
  {
    hide Put, Pruned;
    if events != [] {
      AcceptsThePassed(clock, events[..|events| - 1]);
    }
  }

  /** A token was accepted at some time if and only if a verification of it ended with such a verdict. */
  lemma AcceptedExactly(clock: int, events: seq<Event>, d: Digest)
    ensures d in Run(Initial(clock), events).log <==> exists e <- events :: Passes(e) && e.digest == d
  {
    hide Run, Passes;
    AcceptsThePassed(clock, events);
    PassedAre(events, d);
  }

  lemma {:induction false} PassedAre(events: seq<Event>, d: Digest)
    ensures d in Passed(events) <==> exists e <- events :: Passes(e) && e.digest == d
  {
    hide Passes;
    if events != [] {
      var before, last := events[..|events| - 1], events[|events| - 1];
      PassedAre(before, d);
      assert events == before + [last];
    }
  }

  // ---- The bound is exact ----

  /** A verification that meets no other and is accepted. */
  function Visit(digest: Digest, at: int): seq<Event> {
    [Started(digest, at), Finished(digest, Verdict(Some(at), true, true), at)]
  }

  function Visits(digests: seq<Digest>, at: int): seq<Event> {
    if digests == [] then []
    else Visits(digests[..|digests| - 1], at) + Visit(digests[|digests| - 1], at)
  }

  function Entries(digests: seq<Digest>, at: int): seq<Entry> {
    if digests == [] then []
    else Entries(digests[..|digests| - 1], at) + [Entry(digests[|digests| - 1], at + TURNSTILE_TOKEN_LIFETIME_MS)]
  }

  /** Nothing else is running, and pruning at `at` does not leave `digest` tracked. */
  ghost predicate CanVisit(challenge: Digest -> int, s: State, digest: Digest, at: int) {
    && s.clock <= at && s.pending == {} && s.running == multiset{}
    && challenge(digest) == at && digest !in Digests(Pruned(s.accepted, at))
  }

  function AfterVisit(s: State, digest: Digest, at: int): State {
    State(Pruned(s.accepted, at) + [Entry(digest, at + TURNSTILE_TOKEN_LIFETIME_MS)], {}, multiset{},
          s.log + [digest], at)
  }

  lemma VisitAccepts(challenge: Digest -> int, s: State, digest: Digest, at: int)
    requires CanVisit(challenge, s, digest, at)
    ensures var visit := Visit(digest, at);
      && CanHappen(challenge, s, visit[0])
      && CanHappen(challenge, Step(s, visit[0]), visit[1])
      && Step(Step(s, visit[0]), visit[1]) == AfterVisit(s, digest, at)
  {
    PutAppends(Pruned(s.accepted, at), Entry(digest, at + TURNSTILE_TOKEN_LIFETIME_MS));
    assert {digest} - {digest} == {};
  }

  lemma RunVisit(challenge: Digest -> int, start: State, events: seq<Event>, digest: Digest, at: int)
    requires RunCanHappen(challenge, start, events) && CanVisit(challenge, Run(start, events), digest, at)
    ensures RunCanHappen(challenge, start, events + Visit(digest, at))
    ensures Run(start, events + Visit(digest, at)) == AfterVisit(Run(start, events), digest, at)
  {
    var visit := Visit(digest, at);
    var middle := events + [visit[0]];
    assert events + visit == middle + [visit[1]];
    VisitAccepts(challenge, Run(start, events), digest, at);
    RunAppend(challenge, start, events, visit[0]);
    RunAppend(challenge, start, middle, visit[1]);
  }

  lemma RunAppend(challenge: Digest -> int, start: State, events: seq<Event>, e: Event)
    ensures Run(start, events + [e]) == Step(Run(start, events), e)
    ensures RunCanHappen(challenge, start, events + [e])
       <==> RunCanHappen(challenge, start, events) && CanHappen(challenge, Run(start, events), e)
  {
    assert (events + [e])[..|events|] == events;
  }

  lemma {:induction false} EntriesAt(digests: seq<Digest>, at: int)
    ensures |Entries(digests, at)| == |digests|
    ensures forall i :: 0 <= i < |digests| ==>
      Entries(digests, at)[i] == Entry(digests[i], at + TURNSTILE_TOKEN_LIFETIME_MS)
  {
    if digests != [] {
      EntriesAt(digests[..|digests| - 1], at);
    }
  }

  lemma {:induction false} AllLive(entries: seq<Entry>, now: int)
    requires forall i :: 0 <= i < |entries| ==> now < entries[i].expiresAt
    ensures Live(entries, now) == entries
  {
    if entries != [] {
      AllLive(entries[1..], now);
    }
  }

  lemma {:induction false} NotTracked(entries: seq<Entry>, d: Digest)
    requires forall i :: 0 <= i < |entries| ==> entries[i].digest != d
    ensures d !in Digests(entries)
  {
    if entries != [] {
      NotTracked(entries[1..], d);
    }
  }

  /** Visits of distinct tokens fill the map in order, while they fit. */
  lemma {:induction false} VisitsFillCache(challenge: Digest -> int, digests: seq<Digest>, at: int)
    requires Distinct(digests) && |digests| <= MAX_TRACKED_TOKENS
    requires forall d <- digests :: challenge(d) == at
    ensures RunCanHappen(challenge, Initial(at), Visits(digests, at))
    ensures Run(Initial(at), Visits(digests, at)) == State(Entries(digests, at), {}, multiset{}, digests, at)
  {
    if digests != [] {
      var init, last := digests[..|digests| - 1], digests[|digests| - 1];
      assert digests == init + [last] && last !in init;
      VisitsFillCache(challenge, init, at);
      RoomForVisit(init, at, last);
      var filled := State(Entries(init, at), {}, multiset{}, init, at);
      assert AfterVisit(filled, last, at) == State(Entries(digests, at), {}, multiset{}, digests, at);
      RunVisit(challenge, Initial(at), Visits(init, at), last, at);
    }
  }

  lemma RoomForVisit(tracked: seq<Digest>, at: int, d: Digest)
    requires |tracked| < MAX_TRACKED_TOKENS && d !in tracked
    ensures Pruned(Entries(tracked, at), at) == Entries(tracked, at)
    ensures d !in Digests(Entries(tracked, at))
  {
    EntriesAt(tracked, at);
    AllLive(Entries(tracked, at), at);
    NotTracked(Entries(tracked, at), d);
  }

  lemma OldestGoes(tracked: seq<Digest>, at: int)
    requires |tracked| == MAX_TRACKED_TOKENS && Distinct(tracked)
    ensures tracked[0] !in Digests(Pruned(Entries(tracked, at), at))
  {
    var entries := Entries(tracked, at);
    EntriesAt(tracked, at);
    AllLive(entries, at);
    assert |entries[1..]| < MAX_TRACKED_TOKENS;
    assert Evicted(entries[1..]) == entries[1..];
    NotTracked(entries[1..], tracked[0]);
  }

  /** With exactly `MAX_TRACKED_TOKENS - 1` others in between, a token is accepted a second time. */
  lemma ReplayAfterEviction(challenge: Digest -> int, digests: seq<Digest>, at: int)
    requires Distinct(digests) && |digests| == MAX_TRACKED_TOKENS
    requires forall d <- digests :: challenge(d) == at
    ensures RunCanHappen(challenge, Initial(at), Visits(digests, at) + Visit(digests[0], at))
    ensures Run(Initial(at), Visits(digests, at) + Visit(digests[0], at)).log == digests + [digests[0]]
  {
    VisitsFillCache(challenge, digests, at);
    OldestGoes(digests, at);
    RunVisit(challenge, Initial(at), Visits(digests, at), digests[0], at);
  }

  // ---- How full the cache gets ----

  /** Accepted in this order at `at`, and waiting for an answer. */
  function Filled(tracked: seq<Digest>, waiting: seq<Digest>, at: int): State {
    State(Entries(tracked, at), Members(waiting), multiset(Members(waiting)), tracked, at)
  }

  function Starts(digests: seq<Digest>, at: int): seq<Event> {
    if digests == [] then [] else Starts(digests[..|digests| - 1], at) + [Started(digests[|digests| - 1], at)]
  }

  function Accept(d: Digest, at: int): Event {
    Finished(d, Verdict(Some(at), true, true), at)
  }

  function Accepts(digests: seq<Digest>, at: int): seq<Event> {
    if digests == [] then []
    else Accepts(digests[..|digests| - 1], at) + [Accept(digests[|digests| - 1], at)]
  }

  /** While the map is not full, a verification that starts evicts nothing. */
  lemma StartJoins(tracked: seq<Digest>, waiting: seq<Digest>, d: Digest, at: int)
    requires |tracked| < MAX_TRACKED_TOKENS && |Members(waiting)| < MAX_TRACKED_TOKENS
    requires d !in tracked && d !in waiting
    ensures Step(Filled(tracked, waiting, at), Started(d, at)) == Filled(tracked, waiting + [d], at)
  {
    RoomForVisit(tracked, at, d);
    assert Members(waiting + [d]) == Members(waiting) + {d};
    assert multiset(Members(waiting) + {d}) == multiset(Members(waiting)) + multiset{d};
  }

  /** A verification that is accepted evicts nothing at all. */
  lemma AcceptJoins(tracked: seq<Digest>, waiting: seq<Digest>, at: int)
    requires Distinct(waiting) && waiting != [] && waiting[0] !in tracked
    ensures Step(Filled(tracked, waiting, at), Accept(waiting[0], at))
         == Filled(tracked + [waiting[0]], waiting[1..], at)
  {
    var d, expiresAt := waiting[0], at + TURNSTILE_TOKEN_LIFETIME_MS;
    DistinctRest(waiting);
    EntriesAt(tracked, at);
    NotTracked(Entries(tracked, at), d);
    PutAppends(Entries(tracked, at), Entry(d, expiresAt));
    assert (tracked + [d])[..|tracked|] == tracked;
    assert Members(waiting) - {d} == Members(waiting[1..]);
    assert multiset(Members(waiting)) - multiset{d} == multiset(Members(waiting) - {d});
  }

  lemma {:induction false} StartsFill(
    challenge: Digest -> int, tracked: seq<Digest>, waiting: seq<Digest>, at: int)
    requires Distinct(tracked + waiting) && forall d <- tracked + waiting :: challenge(d) == at
    requires |tracked| < MAX_TRACKED_TOKENS && |waiting| <= MAX_TRACKED_TOKENS
    ensures RunCanHappen(challenge, Initial(at), Visits(tracked, at) + Starts(waiting, at))
    ensures Run(Initial(at), Visits(tracked, at) + Starts(waiting, at)) == Filled(tracked, waiting, at)
  {
    hide Run, RunCanHappen, Visits, Entries, Step;
    if waiting == [] {
      DistinctPart(tracked, waiting, |tracked|);
      VisitsFillCache(challenge, tracked, at);
      assert Visits(tracked, at) + [] == Visits(tracked, at);
    } else {
      var init, d := waiting[..|waiting| - 1], waiting[|waiting| - 1];
      DistinctPart(tracked, waiting, |tracked + waiting| - 1);
      assert (tracked + waiting)[..|tracked + waiting| - 1] == tracked + init && waiting == init + [d];
      StartsFill(challenge, tracked, init, at);
      MembersOfDistinct(tracked, init);
      StartJoins(tracked, init, d, at);
      RunAppend(challenge, Initial(at), Visits(tracked, at) + Starts(init, at), Started(d, at));
      assert Visits(tracked, at) + Starts(waiting, at) == Visits(tracked, at) + Starts(init, at) + [Started(d, at)];
    }
  }

  lemma RunAccept(
    challenge: Digest -> int, start: State, events: seq<Event>, tracked: seq<Digest>, waiting: seq<Digest>, at: int)
    requires RunCanHappen(challenge, start, events) && Run(start, events) == Filled(tracked, waiting, at)
    requires waiting != [] && Distinct(tracked + waiting) && challenge(waiting[0]) == at
    ensures RunCanHappen(challenge, start, events + [Accept(waiting[0], at)])
    ensures Run(start, events + [Accept(waiting[0], at)]) == Filled(tracked + [waiting[0]], waiting[1..], at)
  {
    hide Run, RunCanHappen, Entries, Step;
    DistinctSplit(tracked, waiting);
    AcceptJoins(tracked, waiting, at);
    RunAppend(challenge, start, events, Accept(waiting[0], at));
  }

  lemma {:induction false} AcceptsFill(
    challenge: Digest -> int, tracked: seq<Digest>, waiting: seq<Digest>, n: nat, at: int)
    requires Distinct(tracked + waiting) && forall d <- tracked + waiting :: challenge(d) == at
    requires |tracked| < MAX_TRACKED_TOKENS && n <= |waiting| <= MAX_TRACKED_TOKENS
    ensures var events := Visits(tracked, at) + Starts(waiting, at) + Accepts(waiting[..n], at);
      && RunCanHappen(challenge, Initial(at), events)
      && Run(Initial(at), events) == Filled(tracked + waiting[..n], waiting[n..], at)
  {
    hide Run, RunCanHappen, Visits, Starts, Filled, Accept;
    var before := Visits(tracked, at) + Starts(waiting, at);
    if n == 0 {
      StartsFill(challenge, tracked, waiting, at);
      assert before + [] == before && tracked + waiting[..0] == tracked && waiting[0..] == waiting;
    } else {
      var done, left := tracked + waiting[..n - 1], waiting[n - 1..];
      AcceptsFill(challenge, tracked, waiting, n - 1, at);
      assert done + left == tracked + waiting && left[0] in tracked + waiting;
      assert done + [left[0]] == tracked + waiting[..n] && left[1..] == waiting[n..];
      AcceptsNext(waiting, n, at);
      RunAccept(challenge, Initial(at), before + Accepts(waiting[..n - 1], at), done, left, at);
      assert before + Accepts(waiting[..n], at) == before + Accepts(waiting[..n - 1], at) + [Accept(left[0], at)];
    }
  }

  lemma AcceptsNext(waiting: seq<Digest>, n: nat, at: int)
    requires 0 < n <= |waiting|
    ensures Accepts(waiting[..n], at) == Accepts(waiting[..n - 1], at) + [Accept(waiting[n - 1], at)]
  {
    assert waiting[..n][..n - 1] == waiting[..n - 1];
  }

  lemma DistinctPart(a: seq<Digest>, b: seq<Digest>, n: nat)
    requires Distinct(a + b) && n <= |a + b|
    ensures Distinct((a + b)[..n]) && forall i :: n <= i < |a + b| ==> (a + b)[i] !in (a + b)[..n]
    ensures Distinct((a + b)[..|a|]) && (a + b)[..|a|] == a
  {}

  lemma DistinctSplit(a: seq<Digest>, b: seq<Digest>)
    requires Distinct(a + b) && b != []
    ensures Distinct(b) && b[0] !in a
  {
    assert forall i :: 0 <= i < |b| ==> (a + b)[|a| + i] == b[i];
    assert forall i :: 0 <= i < |a| ==> (a + b)[i] == a[i];
  }

  lemma MembersOfDistinct(a: seq<Digest>, b: seq<Digest>)
    requires Distinct(a + b)
    ensures |Members(b)| == |b|
  {
    assert forall i :: 0 <= i < |b| ==> (a + b)[|a| + i] == b[i];
    DistinctCount(b, Members(b));
  }

  /**
   The bound on both together is attained: a map one entry short of full, and as many verifications
   waiting as there may be. If all of these are accepted, the map alone holds that many.
   */
  lemma CacheFillsUp(challenge: Digest -> int, tracked: seq<Digest>, waiting: seq<Digest>, at: int)
    requires Distinct(tracked + waiting) && forall d <- tracked + waiting :: challenge(d) == at
    requires |tracked| == MAX_TRACKED_TOKENS - 1 && |waiting| == MAX_TRACKED_TOKENS
    ensures var events := Visits(tracked, at) + Starts(waiting, at);
      && RunCanHappen(challenge, Initial(at), events)
      && |Run(Initial(at), events).accepted| + |Run(Initial(at), events).pending| == 2 * MAX_TRACKED_TOKENS - 1
    ensures var events := Visits(tracked, at) + Starts(waiting, at) + Accepts(waiting, at);
      && RunCanHappen(challenge, Initial(at), events)
      && |Run(Initial(at), events).accepted| == 2 * MAX_TRACKED_TOKENS - 1
  {
    hide Run, RunCanHappen, Visits, Starts, Accepts, Entries;
    StartsFill(challenge, tracked, waiting, at);
    AcceptsFill(challenge, tracked, waiting, |waiting|, at);
    assert waiting[..|waiting|] == waiting;
    EntriesAt(tracked, at);
    EntriesAt(tracked + waiting, at);
    MembersOfDistinct(tracked, waiting);
  }

  // ---- The program ----

  /** The module-level map and set, with the two steps of `verify` as methods. */
  class TokenCache {
    var accepted: seq<Entry>
    var pending: set<Digest>
    ghost var running: multiset<Digest>
    ghost var log: seq<Digest>
    ghost var clock: int

    ghost function Abstract(): State
      reads this
    {
      State(accepted, pending, running, log, clock)
    }

    constructor (ghost clock: int)
      ensures Abstract() == Initial(clock)
    {
      accepted, pending, running, log, this.clock := [], {}, multiset{}, [], clock;
    }

    method PruneAcceptedTokens(now: int)
      modifies this`accepted
      ensures accepted == Pruned(old(accepted), now)
    {
      var i := 0;
      while i < |accepted|
        invariant 0 <= i <= |accepted|
        invariant Live(accepted, now) == Live(old(accepted), now)
        invariant forall k :: 0 <= k < i ==> now < accepted[k].expiresAt
        decreases |accepted| - i
      {
        if accepted[i].expiresAt <= now {
          LiveWithout(accepted, i, now);
          accepted := accepted[..i] + accepted[i + 1..];
        } else {
          i := i + 1;
        }
      }
      AllLive(accepted, now);
      while |accepted| >= MAX_TRACKED_TOKENS
        invariant Evicted(accepted) == Pruned(old(accepted), now)
        decreases |accepted|
      {
        accepted := accepted[1..];
      }
    }

    /** `verify` up to its first `await`: whether the verification goes on. */
    method Start(token: string, digest: Digest, now: int) returns (goesOn: bool)
      modifies this
      ensures token == "" ==> !goesOn && Abstract() == old(Abstract())
      ensures token != "" ==> Abstract() == StartStep(old(Abstract()), digest, now)
      ensures goesOn <==>
        && token != "" && digest !in Digests(Pruned(old(accepted), now)) && digest !in old(pending)
        && |old(pending)| < 4_096
      ensures goesOn ==> running == old(running) + multiset{digest}
    {
      if token == "" {
        return false;
      }
      clock := if now > clock then now else clock;
      PruneAcceptedTokens(now);
      if digest in Digests(accepted) || digest in pending {
        return false;
      }
      if |pending| >= MAX_TRACKED_TOKENS {
        return false;
      }
      pending := pending + {digest};
      running := running + multiset{digest};
      return true;
    }

    /** The rest of `verify`, when the answer is there: its result, and the claim is given up. */
    method Finish(digest: Digest, response: Response, now: int) returns (ok: bool)
      requires digest in running
      modifies this
      ensures Abstract() == FinishStep(old(Abstract()), digest, response, now)
      ensures ok <==>
        && response.Verdict? && response.challengedAt.Some? && 0 <= now - response.challengedAt.value < 300_000
        && response.hostnameAllowed && response.actionMatches
      ensures log == if ok then old(log) + [digest] else old(log)
      ensures accepted == if !ok then old(accepted) else
        Put(old(accepted), Entry(digest, response.challengedAt.value + 300_000))
      ensures pending == old(pending) - {digest}
    {
      hide Put;
      ok := false;
      if response.Verdict? {
        clock := if now > clock then now else clock;
        if response.challengedAt.Some? {
          var ageMs := now - response.challengedAt.value;
          if !(ageMs < 0 || ageMs >= TURNSTILE_TOKEN_LIFETIME_MS
               || !response.hostnameAllowed || !response.actionMatches) {
            accepted := Put(accepted, Entry(digest, response.challengedAt.value + TURNSTILE_TOKEN_LIFETIME_MS));
            log := log + [digest];
            ok := true;
          }
        }
      }
      pending := pending - {digest};
      running := running - multiset{digest};
    }
  }

  lemma {:induction false} LiveWithout(entries: seq<Entry>, i: nat, now: int)
    requires i < |entries| && entries[i].expiresAt <= now
    ensures Live(entries[..i] + entries[i + 1..], now) == Live(entries, now)
  {
    if i == 0 {
      assert entries[..0] + entries[1..] == entries[1..];
    } else {
      LiveWithout(entries[1..], i - 1, now);
      assert (entries[..i] + entries[i + 1..])[1..] == entries[1..][..i - 1] + entries[1..][i..];
    }
  }
}
