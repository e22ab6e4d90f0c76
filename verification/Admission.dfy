/**
 The other half of the reference limiter: what it must admit. `AdmitsExactly` gives the decision in terms of
 the load that `SlidingWindow` bounds, and `LimitsAreReached` is a run that fills a window up to its limits.
 */
module Admission {
  import opened Collections
  import opened SlidingWindow

  lemma {:induction false} AllWithin(times: seq<int>, from: int, to: int)
    requires forall i :: 0 <= i < |times| ==> times[i] <= to
    ensures |After(times, from)| == CountWithin(times, from, to)
  {
    if times != [] {
      AllWithin(times[..|times| - 1], from, to);
    }
  }

  lemma {:induction false} TimesAreMarks(marks: seq<Mark>, scope: Scope, to: int)
    requires forall m <- marks :: m.at <= to
    ensures forall i :: 0 <= i < |TimesOf(marks, scope)| ==> TimesOf(marks, scope)[i] <= to
  {
    if marks != [] {
      TimesAreMarks(marks[..|marks| - 1], scope, to);
    }
  }

  /** With nothing dated later than `now`, there is room exactly while the load is below both limits. */
  lemma AdmitsExactly(limits: Limits, l: Ledger, key: string, now: int)
    requires forall m <- l.marks :: m.at <= now
    requires forall id <- l.pending :: l.pending[id].since <= now
    ensures Admits(limits, l, key, now) <==>
      && Load(l, OneKey(key), limits.window, now) < limits.perKey
      && Load(l, AllKeys, limits.window, now) < limits.total
  {
    forall scope: Scope
      ensures |After(TimesOf(l.marks, scope), now - limits.window)| + InFlight(l.pending, scope)
           == Load(l, scope, limits.window, now)
    {
      TimesAreMarks(l.marks, scope, now);
      AllWithin(TimesOf(l.marks, scope), now - limits.window, now);
      assert HeldAt(l.pending, scope, now) == Held(l.pending, scope);
    }
  }

  // ---- A run that reaches the limits ----

  /** Reservations of these keys, all at one time. */
  function Reserves(keys: seq<string>, at: int): seq<Event> {
    if keys == [] then [] else Reserves(keys[..|keys| - 1], at) + [Reserve(keys[|keys| - 1], at)]
  }

  /** The first `n` reservations marked invalid at that time. */
  function Marks(n: nat, at: int): seq<Event> {
    if n == 0 then [] else Marks(n - 1, at) + [MarkedInvalid(n - 1, at)]
  }

  /** The ledger when all the keys are reserved and the first `n` marked. */
  function Marked(keys: seq<string>, n: nat, at: int): Ledger
    requires n <= |keys|
  {
    Ledger(seq(n, i requires 0 <= i < n => Mark(keys[i], at)),
           map i: nat | n <= i < |keys| :: Pending(keys[i], at), |keys|, at)
  }

  ghost predicate Fits(limits: Limits, keys: seq<string>) {
    |keys| <= limits.total && forall k: string :: multiset(keys)[k] <= limits.perKey
  }

  /** How many of the keys a scope covers. */
  function Covered(keys: seq<string>, scope: Scope): nat {
    match scope
    case OneKey(k) => multiset(keys)[k]
    case AllKeys => |keys|
  }

  lemma CoveredNext(keys: seq<string>, key: string, scope: Scope)
    ensures Covered(keys + [key], scope) == Covered(keys, scope) + if scope.Covers(key) then 1 else 0
  {}

  lemma ReserveNext(keys: seq<string>, key: string, at: int)
    ensures Admit(Marked(keys, 0, at), key, at) == Marked(keys + [key], 0, at)
  {}

  lemma {:induction false} InFlightIsCovered(keys: seq<string>, at: int, scope: Scope)
    ensures InFlight(Marked(keys, 0, at).pending, scope) == Covered(keys, scope)
  {
    if keys == [] {
      assert Held(map[], scope) == {};
    } else {
      var init, last := keys[..|keys| - 1], keys[|keys| - 1];
      assert keys == init + [last];
      InFlightIsCovered(init, at, scope);
      InFlightAdmit(Marked(init, 0, at), last, at, scope);
      ReserveNext(init, last, at);
      CoveredNext(init, last, scope);
    }
  }

  lemma {:induction false} ReservesAreAdmitted(limits: Limits, keys: seq<string>, at: int)
    requires Fits(limits, keys)
    ensures Run(limits, Empty(at), Reserves(keys, at)) == Marked(keys, 0, at)
    ensures RunSettlesInOrder(limits, Empty(at), Reserves(keys, at))
  {
    if keys == [] {
      assert Marked(keys, 0, at) == Empty(at);
    } else {
      var init, last := keys[..|keys| - 1], keys[|keys| - 1];
      assert keys == init + [last];
      FitsBefore(limits, init, last);
      ReservesAreAdmitted(limits, init, at);
      StillFits(limits, init, last, at);
      ReserveNext(init, last, at);
      RunAppend(limits, Empty(at), Reserves(init, at), Reserve(last, at));
    }
  }

  lemma FitsBefore(limits: Limits, keys: seq<string>, key: string)
    requires Fits(limits, keys + [key])
    ensures Fits(limits, keys)
  {
    forall k: string ensures multiset(keys)[k] <= limits.perKey {
      assert multiset(keys + [key])[k] <= limits.perKey;
    }
  }

  lemma StillFits(limits: Limits, keys: seq<string>, key: string, at: int)
    requires Fits(limits, keys + [key])
    ensures Admits(limits, Marked(keys, 0, at), key, at)
  {
    assert multiset(keys + [key])[key] <= limits.perKey;
    InFlightIsCovered(keys, at, OneKey(key));
    InFlightIsCovered(keys, at, AllKeys);
  }

  lemma MarkNext(keys: seq<string>, n: nat, at: int)
    requires n < |keys|
    ensures MarkInvalid(Marked(keys, n, at), n, at) == Marked(keys, n + 1, at)
  {}

  lemma {:induction false} MarksAreRecorded(limits: Limits, keys: seq<string>, n: nat, at: int)
    requires Fits(limits, keys) && n <= |keys|
    ensures var events := Reserves(keys, at) + Marks(n, at);
      Run(limits, Empty(at), events) == Marked(keys, n, at) && RunSettlesInOrder(limits, Empty(at), events)
  {
    hide Run, RunSettlesInOrder, Reserves, Fits, MarkInvalid;
    if n == 0 {
      ReservesAreAdmitted(limits, keys, at);
      assert Reserves(keys, at) + [] == Reserves(keys, at);
    } else {
      MarksAreRecorded(limits, keys, n - 1, at);
      MarkNext(keys, n - 1, at);
      RunAppend(limits, Empty(at), Reserves(keys, at) + Marks(n - 1, at), MarkedInvalid(n - 1, at));
      assert Reserves(keys, at) + Marks(n, at) == Reserves(keys, at) + Marks(n - 1, at) + [MarkedInvalid(n - 1, at)];
    }
  }

  lemma NothingCovered(scope: Scope, from: int, to: int)
    ensures CountWithin(TimesOf([], scope), from, to) == Covered([], scope) == 0
  {}

  lemma {:induction false} CountIsCovered(keys: seq<string>, n: nat, at: int, scope: Scope, from: int)
    requires n <= |keys| && from < at
    ensures CountWithin(TimesOf(Marked(keys, n, at).marks, scope), from, at) == Covered(keys[..n], scope)
  {
    hide TimesOf, CountWithin, Covered;
    if n == 0 {
      NothingCovered(scope, from, at);
      assert keys[..0] == [] && Marked(keys, 0, at).marks == [];
    } else {
      CountIsCovered(keys, n - 1, at, scope, from);
      assert Marked(keys, n, at).marks == Marked(keys, n - 1, at).marks + [Mark(keys[n - 1], at)];
      CountAfterMark(Marked(keys, n - 1, at).marks, Mark(keys[n - 1], at), scope, from, at);
      assert keys[..n] == keys[..n - 1] + [keys[n - 1]];
      CoveredNext(keys[..n - 1], keys[n - 1], scope);
    }
  }

  /**
   Whatever keys ask for a reservation at one time, none more often than the limit per key and not more than
   the limit in all: every one is admitted, and marked, the window holds exactly them.
   */
  lemma WindowFills(limits: Limits, keys: seq<string>, at: int, scope: Scope)
    requires limits.Valid() && Fits(limits, keys)
    ensures var events := Reserves(keys, at) + Marks(|keys|, at);
      && RunSettlesInOrder(limits, Empty(at), events)
      && CountWithin(TimesOf(Run(limits, Empty(at), events).marks, scope), at - limits.window, at)
         == Covered(keys, scope)
  {
    hide Run, RunSettlesInOrder, Reserves, Marks, Covered, TimesOf, CountWithin;
    MarksAreRecorded(limits, keys, |keys|, at);
    CountIsCovered(keys, |keys|, at, scope, at - limits.window);
    assert keys[..|keys|] == keys;
  }

  function Same(key: string, n: nat): seq<string> {
    seq(n, _ => key)
  }

  /** As many different keys. */
  function Different(n: nat): (keys: seq<string>)
    ensures |keys| == n && forall i :: 0 <= i < n ==> |keys[i]| == i
  {
    if n == 0 then [] else Different(n - 1) + [seq(n - 1, _ => 'k')]
  }

  lemma {:induction false} SameCount(key: string, n: nat, k: string)
    ensures multiset(Same(key, n))[k] == if k == key then n else 0
  {
    if n > 0 {
      SameCount(key, n - 1, k);
      assert Same(key, n) == Same(key, n - 1) + [key];
    }
  }

  lemma {:induction false} DifferentCount(n: nat, k: string)
    ensures multiset(Different(n))[k] <= if |k| < n then 1 else 0
  {
    if n > 0 {
      DifferentCount(n - 1, k);
    }
  }

  /** Both limits are reached, by a run of one key and by a run of many, for all limits there are. */
  lemma LimitsAreReached(limits: Limits, key: string, at: int)
    requires limits.Valid()
    ensures var events := Reserves(Same(key, limits.perKey), at) + Marks(limits.perKey, at);
      && RunSettlesInOrder(limits, Empty(at), events)
      && CountWithin(TimesOf(Run(limits, Empty(at), events).marks, OneKey(key)), at - limits.window, at)
         == limits.perKey
    ensures var events := Reserves(Different(limits.total), at) + Marks(limits.total, at);
      && RunSettlesInOrder(limits, Empty(at), events)
      && CountWithin(TimesOf(Run(limits, Empty(at), events).marks, AllKeys), at - limits.window, at)
         == limits.total
  {
    hide Run, RunSettlesInOrder, Reserves, Marks, TimesOf, CountWithin;
    forall k: string
      ensures multiset(Same(key, limits.perKey))[k] == if k == key then limits.perKey else 0
      ensures multiset(Different(limits.total))[k] <= 1
    {
      SameCount(key, limits.perKey, k);
      DifferentCount(limits.total, k);
    }
    WindowFills(limits, Same(key, limits.perKey), at, OneKey(key));
    WindowFills(limits, Different(limits.total), at, AllKeys);
  }
}
