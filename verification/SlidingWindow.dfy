/**
 The reference limiter: it forgets nothing. A `Ledger` keeps every invalid attempt ever marked and
 every reservation that is still unsettled. The two limiters of the application keep far less (they
 filter, prune and delete buckets); `BucketTable` shows that what they keep decides the same way.

 The main result here is `SlidingWindowHolds`: over every run, in whatever order reservations are
 taken, marked invalid and released, no window of the configured length holds more invalid attempts
 than the limit, neither for one bucket key nor for all keys together.
 */
module SlidingWindow {
  import opened Collections

  datatype Limits = Limits(perKey: int, total: int, window: int) {
    predicate Valid() {
      1 <= perKey <= total && 1 <= window
    }

    function For(scope: Scope): int {
      if scope.AllKeys? then total else perKey
    }
  }

  /** What a count ranges over: one bucket key, or the whole process. */
  datatype Scope = OneKey(key: string) | AllKeys {
    predicate Covers(k: string) {
      AllKeys? || key == k
    }
  }

  datatype Mark = Mark(key: string, at: int)

  /** A reservation that has been admitted and not settled. */
  datatype Pending = Pending(key: string, since: int)

  /** `clock` is the latest time any reservation was asked for. */
  datatype Ledger = Ledger(marks: seq<Mark>, pending: map<nat, Pending>, issued: nat, clock: int) {
    ghost predicate Valid() {
      forall id <- pending :: id < issued
    }
  }

  /** The attempts still inside the window that `cutoff` opens: what `filter` keeps. */
  function After(times: seq<int>, cutoff: int): seq<int> {
    if times == [] then []
    else
      var rest := After(times[..|times| - 1], cutoff);
      var last := times[|times| - 1];
      if last > cutoff then rest + [last] else rest
  }

  /** How many of `times` lie in the half-open window `(from, to]`. */
  function CountWithin(times: seq<int>, from: int, to: int): nat {
    if times == [] then 0
    else
      var last := times[|times| - 1];
      CountWithin(times[..|times| - 1], from, to) + if from < last <= to then 1 else 0
  }

  function TimesOf(marks: seq<Mark>, scope: Scope): seq<int> {
    if marks == [] then []
    else
      var rest := TimesOf(marks[..|marks| - 1], scope);
      var last := marks[|marks| - 1];
      if scope.Covers(last.key) then rest + [last.at] else rest
  }

  function Held(pending: map<nat, Pending>, scope: Scope): set<nat> {
    set id | id in pending && scope.Covers(pending[id].key)
  }

  function HeldAt(pending: map<nat, Pending>, scope: Scope, at: int): set<nat> {
    set id | id in pending && scope.Covers(pending[id].key) && pending[id].since <= at
  }

  function InFlight(pending: map<nat, Pending>, scope: Scope): nat {
    |Held(pending, scope)|
  }

  /** The reservations of `scope` that were already taken at time `at`. */
  function InFlightAt(pending: map<nat, Pending>, scope: Scope, at: int): nat {
    |HeldAt(pending, scope, at)|
  }

  predicate HasRoom(limits: Limits, l: Ledger, scope: Scope, now: int) {
    |After(TimesOf(l.marks, scope), now - limits.window)| + InFlight(l.pending, scope) < limits.For(scope)
  }

  predicate Admits(limits: Limits, l: Ledger, key: string, now: int) {
    HasRoom(limits, l, OneKey(key), now) && HasRoom(limits, l, AllKeys, now)
  }

  function Observe(l: Ledger, now: int): Ledger {
    if now > l.clock then l.(clock := now) else l
  }

  function Admit(l: Ledger, key: string, now: int): Ledger {
    l.(pending := l.pending[l.issued := Pending(key, now)], issued := l.issued + 1)
  }

  function MarkInvalid(l: Ledger, id: nat, at: int): Ledger
    requires id in l.pending
  {
    l.(marks := l.marks + [Mark(l.pending[id].key, at)], pending := l.pending - {id})
  }

  function Release(l: Ledger, id: nat): Ledger {
    l.(pending := l.pending - {id})
  }

  function Settled(l: Ledger, id: nat, invalid: bool, settledAt: int): Ledger
    requires id in l.pending
  {
    if invalid then MarkInvalid(l, id, settledAt) else Release(l, id)
  }

  // ---- Runs ----

  datatype Event =
    | Reserve(key: string, now: int)
    | MarkedInvalid(id: nat, at: int)
    | Released(id: nat)

  /** One step of the reference limiter; settling twice does nothing the second time. */
  function Step(limits: Limits, l: Ledger, e: Event): Ledger {
    match e
    case Reserve(key, now) =>
      var seen := Observe(l, now);
      if Admits(limits, seen, key, now) then Admit(seen, key, now) else seen
    case MarkedInvalid(id, at) => if id in l.pending then MarkInvalid(l, id, at) else l
    case Released(id) => Release(l, id)
  }

  function Run(limits: Limits, start: Ledger, events: seq<Event>): Ledger {
    if events == [] then start
    else Step(limits, Run(limits, start, events[..|events| - 1]), events[|events| - 1])
  }

  /** An attempt is marked no earlier than its reservation was taken. */
  predicate SettlesInOrder(l: Ledger, e: Event) {
    e.MarkedInvalid? && e.id in l.pending ==> l.pending[e.id].since <= e.at
  }

  predicate RunSettlesInOrder(limits: Limits, start: Ledger, events: seq<Event>) {
    events == [] ||
    (RunSettlesInOrder(limits, start, events[..|events| - 1]) &&
     SettlesInOrder(Run(limits, start, events[..|events| - 1]), events[|events| - 1]))
  }

  function Empty(clock: int): Ledger {
    Ledger([], map[], 0, clock)
  }

  /**
   At every instant, the marks of the window that ends there plus the reservations already taken
   then, each of which may still become a mark of that window.
   */
  function Load(l: Ledger, scope: Scope, window: int, at: int): nat {
    CountWithin(TimesOf(l.marks, scope), at - window, at) + InFlightAt(l.pending, scope, at)
  }

  ghost predicate Bounded(limits: Limits, l: Ledger) {
    forall scope: Scope, at: int :: Load(l, scope, limits.window, at) <= limits.For(scope)
  }

  // ---- Filtering ----

  lemma {:induction false} AfterAfter(times: seq<int>, a: int, b: int)
    ensures After(After(times, a), b) == After(times, if a > b then a else b)
  {
    if times != [] {
      AfterAfter(times[..|times| - 1], a, b);
      var last := times[|times| - 1];
      var kept := After(times[..|times| - 1], a);
      assert (kept + [last])[..|kept|] == kept;
    }
  }

  lemma AfterNothing(cutoff: int)
    ensures After([], cutoff) == []
  {}

  lemma {:induction false} AfterAppend(times: seq<int>, t: int, cutoff: int)
    ensures After(times + [t], cutoff) == After(times, cutoff) + if t > cutoff then [t] else []
  {
    assert (times + [t])[..|times|] == times;
  }

  /** Lists that agree past one cutoff agree past every later one. */
  lemma AfterLater(s: seq<int>, t: seq<int>, a: int, b: int)
    requires After(s, a) == After(t, a) && a <= b
    ensures After(s, b) == After(t, b)
  {
    AfterAfter(s, a, b);
    AfterAfter(t, a, b);
  }

  lemma {:induction false} CountWithinAppend(times: seq<int>, t: int, from: int, to: int)
    ensures CountWithin(times + [t], from, to)
         == CountWithin(times, from, to) + if from < t <= to then 1 else 0
  {
    assert (times + [t])[..|times|] == times;
  }

  lemma {:induction false} CountWithinAtMostAfter(times: seq<int>, from: int, to: int, cutoff: int)
    requires cutoff <= from
    ensures CountWithin(times, from, to) <= |After(times, cutoff)|
  {
    if times != [] {
      CountWithinAtMostAfter(times[..|times| - 1], from, to, cutoff);
    }
  }

  lemma TimesOfAppend(marks: seq<Mark>, m: Mark, scope: Scope)
    ensures TimesOf(marks + [m], scope) == TimesOf(marks, scope) + if scope.Covers(m.key) then [m.at] else []
  {
    assert (marks + [m])[..|marks|] == marks;
  }

  // ---- Counting reservations ----

  lemma OneMore(fewer: set<nat>, more: set<nat>, id: nat, added: bool)
    requires id !in fewer && forall i :: i in more <==> i in fewer || (i == id && added)
    ensures |more| == |fewer| + if added then 1 else 0
  {
    assert more == if added then fewer + {id} else fewer;
  }

  lemma InFlightAdmit(l: Ledger, key: string, now: int, scope: Scope)
    requires l.Valid()
    ensures InFlight(Admit(l, key, now).pending, scope)
         == InFlight(l.pending, scope) + if scope.Covers(key) then 1 else 0
  {
    var before, after := Held(l.pending, scope), Held(Admit(l, key, now).pending, scope);
    assert l.issued !in l.pending;
    OneMore(before, after, l.issued, scope.Covers(key));
  }

  lemma InFlightAtAdmit(l: Ledger, key: string, now: int, scope: Scope, at: int)
    requires l.Valid()
    ensures InFlightAt(Admit(l, key, now).pending, scope, at)
         == InFlightAt(l.pending, scope, at) + if scope.Covers(key) && now <= at then 1 else 0
  {
    var before, after := HeldAt(l.pending, scope, at), HeldAt(Admit(l, key, now).pending, scope, at);
    assert l.issued !in l.pending;
    OneMore(before, after, l.issued, scope.Covers(key) && now <= at);
  }

  lemma InFlightSettle(pending: map<nat, Pending>, id: nat, scope: Scope)
    requires id in pending
    ensures InFlight(pending, scope)
         == InFlight(pending - {id}, scope) + if scope.Covers(pending[id].key) then 1 else 0
  {
    var before, after := Held(pending, scope), Held(pending - {id}, scope);
    OneMore(after, before, id, scope.Covers(pending[id].key));
  }

  lemma InFlightAtSettle(pending: map<nat, Pending>, id: nat, scope: Scope, at: int)
    requires id in pending
    ensures InFlightAt(pending, scope, at)
         == InFlightAt(pending - {id}, scope, at)
            + if scope.Covers(pending[id].key) && pending[id].since <= at then 1 else 0
  {
    var before, after := HeldAt(pending, scope, at), HeldAt(pending - {id}, scope, at);
    OneMore(after, before, id, scope.Covers(pending[id].key) && pending[id].since <= at);
  }

  lemma InFlightAtMost(pending: map<nat, Pending>, scope: Scope, at: int)
    ensures InFlightAt(pending, scope, at) <= InFlight(pending, scope)
  {
    CardinalityMonotone(HeldAt(pending, scope, at), Held(pending, scope));
  }

  // ---- What a limiter may forget ----

  /**
   A list of attempts and a count that decide for `scope` as the whole ledger does, in every window
   that can still be asked for.
   */
  ghost predicate Agrees(times: seq<int>, inFlight: int, l: Ledger, scope: Scope, window: int) {
    && After(times, l.clock - window) == After(TimesOf(l.marks, scope), l.clock - window)
    && inFlight == InFlight(l.pending, scope)
  }

  lemma AgreesObserve(times: seq<int>, inFlight: int, l: Ledger, scope: Scope, window: int, now: int)
    requires Agrees(times, inFlight, l, scope, window)
    ensures Agrees(times, inFlight, Observe(l, now), scope, window)
  {
    AfterLater(times, TimesOf(l.marks, scope), l.clock - window, Observe(l, now).clock - window);
  }

  lemma AgreesFilter(times: seq<int>, inFlight: int, l: Ledger, scope: Scope, window: int, now: int)
    requires Agrees(times, inFlight, l, scope, window) && now <= l.clock
    ensures Agrees(After(times, now - window), inFlight, l, scope, window)
    ensures now == l.clock ==> After(times, now - window) == After(TimesOf(l.marks, scope), now - window)
  {
    AfterAfter(times, now - window, l.clock - window);
  }

  lemma AgreesAdmit(times: seq<int>, inFlight: int, l: Ledger, scope: Scope, window: int, key: string, now: int)
    requires l.Valid() && Agrees(times, inFlight, l, scope, window)
    ensures Agrees(times, inFlight + if scope.Covers(key) then 1 else 0, Admit(l, key, now), scope, window)
  {
    InFlightAdmit(l, key, now, scope);
  }

  lemma AgreesRelease(times: seq<int>, inFlight: int, l: Ledger, scope: Scope, window: int, id: nat)
    requires id in l.pending && Agrees(times, inFlight, l, scope, window)
    ensures Agrees(times, inFlight - if scope.Covers(l.pending[id].key) then 1 else 0, Release(l, id), scope, window)
    ensures scope.Covers(l.pending[id].key) ==> inFlight >= 1
  {
    InFlightSettle(l.pending, id, scope);
  }

  function Record(l: Ledger, m: Mark): Ledger {
    l.(marks := l.marks + [m])
  }

  lemma AgreesRecord(times: seq<int>, inFlight: int, l: Ledger, scope: Scope, window: int, m: Mark)
    requires Agrees(times, inFlight, l, scope, window)
    ensures Agrees(if scope.Covers(m.key) then times + [m.at] else times, inFlight, Record(l, m), scope, window)
  {
    var cutoff := l.clock - window;
    assert After(TimesOf(l.marks + [m], scope), cutoff)
        == After(TimesOf(l.marks, scope), cutoff) + if scope.Covers(m.key) && m.at > cutoff then [m.at] else []
    by {
      TimesOfAppend(l.marks, m, scope);
      if scope.Covers(m.key) {
        AfterAppend(TimesOf(l.marks, scope), m.at, cutoff);
      }
    }
    if scope.Covers(m.key) {
      AfterAppend(times, m.at, cutoff);
    }
  }

  function SettleEvent(id: nat, invalid: bool, settledAt: int): Event {
    if invalid then MarkedInvalid(id, settledAt) else Released(id)
  }

  lemma AgreesSettled(
    times: seq<int>, inFlight: int, l: Ledger, window: int, id: nat, invalid: bool, settledAt: int)
    requires id in l.pending && Agrees(times, inFlight, l, AllKeys, window)
    ensures inFlight >= 1
    ensures Agrees(if invalid then times + [settledAt] else times, inFlight - 1,
                   Settled(l, id, invalid, settledAt), AllKeys, window)
  {
    AgreesRelease(times, inFlight, l, AllKeys, window, id);
    if invalid {
      AgreesRecord(times, inFlight - 1, Release(l, id), AllKeys, window, Mark(l.pending[id].key, settledAt));
    }
  }

  lemma SettledIsStep(limits: Limits, l: Ledger, id: nat, invalid: bool, settledAt: int)
    ensures Step(limits, l, SettleEvent(id, invalid, settledAt))
         == if id in l.pending then Settled(l, id, invalid, settledAt) else l
  {
    if id !in l.pending {
      assert l.pending - {id} == l.pending;
    }
  }

  // ---- The bound is kept by every step ----

  /**
   Admission needs no assumption on the clock: a window that contains the new reservation starts at
   or after the cutoff the admission looked at, so everything it may hold was counted.
   */
  lemma AdmitKeepsBounded(limits: Limits, l: Ledger, key: string, now: int)
    requires l.Valid() && Bounded(limits, l) && Admits(limits, l, key, now)
    ensures Admit(l, key, now).Valid() && Bounded(limits, Admit(l, key, now))
  {
    var l' := Admit(l, key, now);
    forall scope: Scope, at: int
      ensures Load(l', scope, limits.window, at) <= limits.For(scope)
    {
      assert Load(l, scope, limits.window, at) <= limits.For(scope);
      InFlightAtAdmit(l, key, now, scope, at);
      if scope.Covers(key) && now <= at {
        assert HasRoom(limits, l, scope, now);
        CountWithinAtMostAfter(TimesOf(l.marks, scope), at - limits.window, at, now - limits.window);
        InFlightAtMost(l.pending, scope, at);
      }
    }
  }

  /** Turning a reservation into a mark moves one unit of load from the reservation to the mark. */
  lemma LoadAfterMark(l: Ledger, id: nat, settledAt: int, scope: Scope, window: int, at: int)
    requires id in l.pending && l.pending[id].since <= settledAt
    ensures Load(MarkInvalid(l, id, settledAt), scope, window, at) <= Load(l, scope, window, at)
  {
    var mark := Mark(l.pending[id].key, settledAt);
    var moved := scope.Covers(mark.key);
    var before, after := InFlightAt(l.pending, scope, at), InFlightAt(l.pending - {id}, scope, at);
    assert before == after + if moved && l.pending[id].since <= at then 1 else 0 by {
      InFlightAtSettle(l.pending, id, scope, at);
    }
    var marked, marked' := CountWithin(TimesOf(l.marks, scope), at - window, at),
                           CountWithin(TimesOf(l.marks + [mark], scope), at - window, at);
    assert marked' == marked + if moved && at - window < settledAt <= at then 1 else 0 by {
      CountAfterMark(l.marks, mark, scope, at - window, at);
    }
    assert marked' + after <= marked + before;
  }

  lemma CountAfterMark(marks: seq<Mark>, m: Mark, scope: Scope, from: int, to: int)
    ensures CountWithin(TimesOf(marks + [m], scope), from, to)
         == CountWithin(TimesOf(marks, scope), from, to)
            + if scope.Covers(m.key) && from < m.at <= to then 1 else 0
  {
    TimesOfAppend(marks, m, scope);
    if scope.Covers(m.key) {
      CountWithinAppend(TimesOf(marks, scope), m.at, from, to);
    }
  }

  lemma MarkKeepsBounded(limits: Limits, l: Ledger, id: nat, settledAt: int)
    requires l.Valid() && Bounded(limits, l)
    requires id in l.pending && l.pending[id].since <= settledAt
    ensures MarkInvalid(l, id, settledAt).Valid() && Bounded(limits, MarkInvalid(l, id, settledAt))
  {
    forall scope: Scope, at: int
      ensures Load(MarkInvalid(l, id, settledAt), scope, limits.window, at) <= limits.For(scope)
    {
      LoadAfterMark(l, id, settledAt, scope, limits.window, at);
      assert Load(l, scope, limits.window, at) <= limits.For(scope);
    }
  }

  lemma ReleaseKeepsBounded(limits: Limits, l: Ledger, id: nat)
    requires l.Valid() && Bounded(limits, l)
    ensures Release(l, id).Valid() && Bounded(limits, Release(l, id))
  {
    if id in l.pending {
      forall scope: Scope, t: int
        ensures Load(Release(l, id), scope, limits.window, t) <= limits.For(scope)
      {
        assert Load(l, scope, limits.window, t) <= limits.For(scope);
        InFlightAtSettle(l.pending, id, scope, t);
      }
    } else {
      assert Release(l, id) == l;
    }
  }

  lemma ObserveKeepsBounded(limits: Limits, l: Ledger, now: int)
    requires l.Valid() && Bounded(limits, l)
    ensures Observe(l, now).Valid() && Bounded(limits, Observe(l, now))
  {
    forall scope: Scope, t: int
      ensures Load(Observe(l, now), scope, limits.window, t) <= limits.For(scope)
    {
      assert Load(l, scope, limits.window, t) <= limits.For(scope);
    }
  }

  lemma StepKeepsBounded(limits: Limits, l: Ledger, e: Event)
    requires l.Valid() && Bounded(limits, l) && SettlesInOrder(l, e)
    ensures Step(limits, l, e).Valid() && Bounded(limits, Step(limits, l, e))
  {
    match e
    case Reserve(key, now) =>
      ObserveKeepsBounded(limits, l, now);
      if Admits(limits, Observe(l, now), key, now) {
        AdmitKeepsBounded(limits, Observe(l, now), key, now);
      }
    case MarkedInvalid(id, at) =>
      if id in l.pending {
        MarkKeepsBounded(limits, l, id, at);
      }
    case Released(id) => ReleaseKeepsBounded(limits, l, id);
  }

  lemma {:induction false} RunKeepsBounded(limits: Limits, clock: int, events: seq<Event>)
    requires limits.Valid() && RunSettlesInOrder(limits, Empty(clock), events)
    ensures Run(limits, Empty(clock), events).Valid() && Bounded(limits, Run(limits, Empty(clock), events))
  {
    if events == [] {
      forall scope: Scope, at: int
        ensures Load(Empty(clock), scope, limits.window, at) <= limits.For(scope)
      {
        assert HeldAt(map[], scope, at) == {};
      }
    } else {
      RunKeepsBounded(limits, clock, events[..|events| - 1]);
      StepKeepsBounded(limits, Run(limits, Empty(clock), events[..|events| - 1]), events[|events| - 1]);
    }
  }

  lemma RunAppend(limits: Limits, start: Ledger, events: seq<Event>, e: Event)
    ensures Run(limits, start, events + [e]) == Step(limits, Run(limits, start, events), e)
    ensures RunSettlesInOrder(limits, start, events + [e])
       <==> RunSettlesInOrder(limits, start, events) && SettlesInOrder(Run(limits, start, events), e)
  {
    assert (events + [e])[..|events|] == events;
  }

  /** No window ever holds more invalid attempts than its limit, per key and in all. */
  lemma SlidingWindowHolds(limits: Limits, clock: int, events: seq<Event>, scope: Scope, to: int)
    requires limits.Valid() && RunSettlesInOrder(limits, Empty(clock), events)
    ensures CountWithin(TimesOf(Run(limits, Empty(clock), events).marks, scope), to - limits.window, to)
         <= limits.For(scope)
  {
    hide Run, RunSettlesInOrder;
    RunKeepsBounded(limits, clock, events);
    var l := Run(limits, Empty(clock), events);
    assert Load(l, scope, limits.window, to) <= limits.For(scope);
  }

  // ---- What it rests on ----

  const TIGHT := Limits(1, 1, 10)

  lemma OneMark(m: Mark, scope: Scope, cutoff: int)
    ensures TimesOf([m], scope) == if scope.Covers(m.key) then [m.at] else []
    ensures After(TimesOf([m], scope), cutoff) == if scope.Covers(m.key) && m.at > cutoff then [m.at] else []
  {
    TimesOfAppend([], m, scope);
    AfterAppend([], m.at, cutoff);
    assert [] + [m] == [m] && [] + [m.at] == [m.at];
  }

  lemma FirstIsAdmitted(key: string)
    ensures Step(TIGHT, Empty(0), Reserve(key, 0)) == Ledger([], map[0 := Pending(key, 0)], 1, 0)
  {
    assert Held(map[], OneKey(key)) == {} && Held(map[], AllKeys) == {};
  }

  /** When the one mark has left the window, a second reservation is admitted. */
  lemma SecondIsAdmitted(key: string)
    ensures Step(TIGHT, Ledger([Mark(key, 0)], map[], 1, 0), Reserve(key, 20))
         == Ledger([Mark(key, 0)], map[1 := Pending(key, 20)], 2, 20)
  {
    hide TimesOf, After;
    assert Held(map[], OneKey(key)) == {} && Held(map[], AllKeys) == {};
    OneMark(Mark(key, 0), OneKey(key), 10);
    OneMark(Mark(key, 0), AllKeys, 10);
  }

  /** The order of settling is needed: a mark dated before its reservation can fall into an older, full window. */
  lemma EarlyMarkOverfills(key: string)
    ensures var events := [Reserve(key, 0), MarkedInvalid(0, 0), Reserve(key, 20), MarkedInvalid(1, 5)];
      && !RunSettlesInOrder(TIGHT, Empty(0), events)
      && CountWithin(TimesOf(Run(TIGHT, Empty(0), events).marks, OneKey(key)), -5, 5) == 2 > TIGHT.perKey
  {
    hide Run, RunSettlesInOrder, Step, TimesOf, CountWithin;
    var a, b, c, d := Reserve(key, 0), MarkedInvalid(0, 0), Reserve(key, 20), MarkedInvalid(1, 5);
    FourSteps(TIGHT, Empty(0), a, b, c, d);
    FirstIsAdmitted(key);
    MarkedSteps(key);
    SecondIsAdmitted(key);
    CountAfterMark([], Mark(key, 0), OneKey(key), -5, 5);
    CountAfterMark([Mark(key, 0)], Mark(key, 5), OneKey(key), -5, 5);
    NoMarks(key);
    assert [] + [Mark(key, 0)] == [Mark(key, 0)];
    assert [Mark(key, 0)] + [Mark(key, 5)] == [Mark(key, 0), Mark(key, 5)];
  }

  lemma NoMarks(key: string)
    ensures CountWithin(TimesOf([], OneKey(key)), -5, 5) == 0
  {}

  lemma MarkedSteps(key: string)
    ensures Step(TIGHT, Ledger([], map[0 := Pending(key, 0)], 1, 0), MarkedInvalid(0, 0))
         == Ledger([Mark(key, 0)], map[], 1, 0)
    ensures Step(TIGHT, Ledger([Mark(key, 0)], map[1 := Pending(key, 20)], 2, 20), MarkedInvalid(1, 5))
         == Ledger([Mark(key, 0), Mark(key, 5)], map[], 2, 20)
  {
    assert [] + [Mark(key, 0)] == [Mark(key, 0)];
    assert [Mark(key, 0)] + [Mark(key, 5)] == [Mark(key, 0), Mark(key, 5)];
  }

  lemma FourSteps(limits: Limits, l: Ledger, a: Event, b: Event, c: Event, d: Event)
    ensures var third := Step(limits, Step(limits, Step(limits, l, a), b), c);
      && Run(limits, l, [a, b, c, d]) == Step(limits, third, d)
      && (RunSettlesInOrder(limits, l, [a, b, c, d]) ==> SettlesInOrder(third, d))
  {
    hide Run, RunSettlesInOrder, Step, SettlesInOrder;
    RunAppend(limits, l, [], a);
    RunAppend(limits, l, [a], b);
    RunAppend(limits, l, [a, b], c);
    RunAppend(limits, l, [a, b, c], d);
    NoSteps(limits, l);
    assert [] + [a] == [a] && [a] + [b] == [a, b] && [a, b] + [c] == [a, b, c] && [a, b, c] + [d] == [a, b, c, d];
  }

  lemma NoSteps(limits: Limits, l: Ledger)
    ensures Run(limits, l, []) == l && RunSettlesInOrder(limits, l, [])
  {}

  /**
   The clock is needed, too: a list that was filtered at time 20 has room at time 5, although the full
   history has none, and the reservation it then admits is one mark too many in the window that ends there.
   */
  lemma ClockBackOverfills(key: string)
    ensures var full := Ledger([Mark(key, 0)], map[], 1, 20);
      && !Admits(TIGHT, full, key, 5)
      && |After(After(TimesOf(full.marks, OneKey(key)), 20 - TIGHT.window), 5 - TIGHT.window)| < TIGHT.perKey
      && CountWithin(TimesOf(full.marks + [Mark(key, 5)], OneKey(key)), 5 - TIGHT.window, 5) > TIGHT.perKey
  {
    hide After, TimesOf, CountWithin, Held;
    OneMark(Mark(key, 0), OneKey(key), 10);
    OneMark(Mark(key, 0), OneKey(key), -5);
    NoneAfter(0, 10, -5);
    CountAfterMark([], Mark(key, 0), OneKey(key), -5, 5);
    CountAfterMark([Mark(key, 0)], Mark(key, 5), OneKey(key), -5, 5);
    NoMarks(key);
    assert [] + [Mark(key, 0)] == [Mark(key, 0)];
    assert TIGHT.window == 10;
  }

  lemma NoneAfter(t: int, a: int, b: int)
    requires t <= a
    ensures After(After([t], a), b) == []
  {
    AfterAppend([], t, a);
    assert [] + [t] == [t];
  }

  // ---- The process-wide counts are the sums of the per-key counts ----

  function RecentSum(keys: seq<string>, marks: seq<Mark>, cutoff: int): nat {
    if keys == [] then 0
    else RecentSum(keys[1..], marks, cutoff) + |After(TimesOf(marks, OneKey(keys[0])), cutoff)|
  }

  function InFlightSum(keys: seq<string>, pending: map<nat, Pending>): nat {
    if keys == [] then 0
    else InFlightSum(keys[1..], pending) + InFlight(pending, OneKey(keys[0]))
  }

  lemma RecentOfAppend(key: string, marks: seq<Mark>, m: Mark, cutoff: int)
    ensures |After(TimesOf(marks + [m], OneKey(key)), cutoff)|
         == |After(TimesOf(marks, OneKey(key)), cutoff)| + if m.key == key && m.at > cutoff then 1 else 0
  {
    TimesOfAppend(marks, m, OneKey(key));
    if m.key == key {
      AfterAppend(TimesOf(marks, OneKey(key)), m.at, cutoff);
    }
  }

  lemma {:induction false} RecentSumAppend(keys: seq<string>, marks: seq<Mark>, m: Mark, cutoff: int)
    requires Distinct(keys)
    ensures RecentSum(keys, marks + [m], cutoff)
         == RecentSum(keys, marks, cutoff) + if m.key in keys && m.at > cutoff then 1 else 0
  {
    if keys != [] {
      RecentSumAppend(keys[1..], marks, m, cutoff);
      RecentOfAppend(keys[0], marks, m, cutoff);
      assert keys == [keys[0]] + keys[1..];
      assert m.key == keys[0] ==> m.key !in keys[1..];
    }
  }

  lemma {:induction false} RecentSumEmpty(keys: seq<string>, cutoff: int)
    ensures RecentSum(keys, [], cutoff) == 0
  {
    if keys != [] {
      RecentSumEmpty(keys[1..], cutoff);
    }
  }

  /** If every attempt of the window has its key among `keys`, the process-wide count is their sum. */
  lemma {:induction false} RecentIsSumOverKeys(keys: seq<string>, marks: seq<Mark>, cutoff: int)
    requires Distinct(keys)
    requires forall k :: k !in keys ==> After(TimesOf(marks, OneKey(k)), cutoff) == []
    ensures |After(TimesOf(marks, AllKeys), cutoff)| == RecentSum(keys, marks, cutoff)
  {
    if marks == [] {
      RecentSumEmpty(keys, cutoff);
    } else {
      var init, m := marks[..|marks| - 1], marks[|marks| - 1];
      assert marks == init + [m];
      forall k | k !in keys
        ensures After(TimesOf(init, OneKey(k)), cutoff) == [] && (m.key == k ==> m.at <= cutoff)
      {
        TimesOfAppend(init, m, OneKey(k));
        AfterAppend(TimesOf(init, OneKey(k)), m.at, cutoff);
      }
      RecentIsSumOverKeys(keys, init, cutoff);
      RecentSumAppend(keys, init, m, cutoff);
      AfterAppend(TimesOf(init, AllKeys), m.at, cutoff);
    }
  }

  function HeldByAny(pending: map<nat, Pending>, keys: seq<string>): set<nat> {
    set id | id in pending && pending[id].key in keys
  }

  lemma HeldByAnySplit(pending: map<nat, Pending>, keys: seq<string>)
    requires Distinct(keys) && keys != []
    ensures |HeldByAny(pending, keys)| == InFlight(pending, OneKey(keys[0])) + |HeldByAny(pending, keys[1..])|
  {
    var head, tail := Held(pending, OneKey(keys[0])), HeldByAny(pending, keys[1..]);
    assert keys == [keys[0]] + keys[1..];
    assert HeldByAny(pending, keys) == head + tail;
    assert head * tail == {};
  }

  lemma {:induction false} InFlightSumCounts(keys: seq<string>, pending: map<nat, Pending>)
    requires Distinct(keys)
    ensures InFlightSum(keys, pending) == |HeldByAny(pending, keys)|
  {
    if keys == [] {
      assert HeldByAny(pending, keys) == {};
    } else {
      InFlightSumCounts(keys[1..], pending);
      HeldByAnySplit(pending, keys);
    }
  }

  lemma InFlightIsSumOverKeys(keys: seq<string>, pending: map<nat, Pending>)
    requires Distinct(keys)
    requires forall id <- pending :: pending[id].key in keys
    ensures InFlight(pending, AllKeys) == InFlightSum(keys, pending)
  {
    InFlightSumCounts(keys, pending);
    assert HeldByAny(pending, keys) == Held(pending, AllKeys);
  }
}
