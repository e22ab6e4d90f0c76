/**
 Which stored signals `recomputeStoredReview` decides from.

 The latest receipt of each signal is found by a pass over its move's history. `OrderIndependentExactly`
 says when the signals rejected do not depend on the order of that history, and `DecidesFromExactly` which
 signals remain.
 */
module StoredReview {

  datatype Receipt = Receipt(signalId: string, moveVersion: int, availability: string)

  datatype SourceRun = SourceRun(id: string, state: string)

  datatype SignalRow = SignalRow(signalId: string, sourceRun: SourceRun)

  datatype Snapshot = Snapshot(signalId: string, observedAt: int)

  const REJECTED := "REJECTED"
  const SUCCEEDED := "SUCCEEDED"

  predicate Replaces(latest: map<string, Receipt>, receipt: Receipt) {
    receipt.signalId !in latest || receipt.moveVersion > latest[receipt.signalId].moveVersion
  }

  function Latest(history: seq<Receipt>): map<string, Receipt> {
    if history == [] then map[]
    else
      var latest, receipt := Latest(history[..|history| - 1]), history[|history| - 1];
      if Replaces(latest, receipt) then latest[receipt.signalId := receipt] else latest
  }

  method LatestEvidence(history: seq<Receipt>) returns (latest: map<string, Receipt>)
    ensures latest == Latest(history)
    ensures forall s :: s in latest <==> HasReceipt(history, s)
    ensures forall s <- latest :: latest[s].signalId == s && IsLatest(history, latest[s])
  {
    latest := map[];
    for i := 0 to |history|
      invariant latest == Latest(history[..i])
    {
      assert history[..i + 1][..i] == history[..i];
      if Replaces(latest, history[i]) {
        latest := latest[history[i].signalId := history[i]];
      }
    }
    assert history[..|history|] == history;
    forall s ensures s in latest <==> HasReceipt(history, s)
             ensures s in latest ==> latest[s].signalId == s && IsLatest(history, latest[s]) {
      LatestIsFirstTop(history, s);
    }
  }

  function RejectedSignals(history: seq<Receipt>): set<string> {
    var latest := Latest(history);
    set s | s in latest && latest[s].availability == REJECTED
  }

  /** No receipt of the same signal has a higher version. */
  predicate IsTop(history: seq<Receipt>, r: Receipt) {
    r in history && forall x <- history | x.signalId == r.signalId :: x.moveVersion <= r.moveVersion
  }

  /** The first of the receipts of its signal that have the highest version. */
  predicate IsFirstTop(history: seq<Receipt>, i: nat) {
    && i < |history|
    && (forall k :: 0 <= k < |history| && history[k].signalId == history[i].signalId ==>
          history[k].moveVersion <= history[i].moveVersion)
    && (forall k :: 0 <= k < i && history[k].signalId == history[i].signalId ==>
          history[k].moveVersion < history[i].moveVersion)
  }

  ghost predicate IsLatest(history: seq<Receipt>, r: Receipt) {
    exists i: nat :: IsFirstTop(history, i) && history[i] == r
  }

  predicate HasReceipt(history: seq<Receipt>, s: string) {
    exists r <- history :: r.signalId == s
  }

  lemma StaysLatest(before: seq<Receipt>, r: Receipt, last: Receipt)
    requires IsLatest(before, r) && (last.signalId == r.signalId ==> last.moveVersion <= r.moveVersion)
    ensures IsLatest(before + [last], r)
  {
    var i: nat :| IsFirstTop(before, i) && before[i] == r;
    assert IsFirstTop(before + [last], i);
  }

  lemma BecomesLatest(before: seq<Receipt>, last: Receipt)
    requires forall x <- before | x.signalId == last.signalId :: x.moveVersion < last.moveVersion
    ensures IsLatest(before + [last], last)
  {
    assert IsFirstTop(before + [last], |before|);
  }

  lemma LatestIsHighest(history: seq<Receipt>, r: Receipt, x: Receipt)
    requires IsLatest(history, r) && x in history && x.signalId == r.signalId
    ensures x.moveVersion <= r.moveVersion
  {}

  lemma OneLatest(history: seq<Receipt>, r: Receipt, x: Receipt)
    requires IsLatest(history, r) && IsLatest(history, x) && x.signalId == r.signalId
    ensures r == x
  {}

  lemma LatestNext(before: seq<Receipt>, latest: map<string, Receipt>, last: Receipt, s: string)
    requires s in latest ==> latest[s].signalId == s && IsLatest(before, latest[s])
    requires s in latest <==> HasReceipt(before, s)
    ensures var next := if Replaces(latest, last) then latest[last.signalId := last] else latest;
      && (s in next <==> HasReceipt(before + [last], s))
      && (s in next ==> next[s].signalId == s && IsLatest(before + [last], next[s]))
  {
    assert forall r :: r in before + [last] <==> r in before || r == last;
    if s == last.signalId && Replaces(latest, last) {
      forall x | x in before && x.signalId == s ensures x.moveVersion < last.moveVersion {
        LatestIsHighest(before, latest[s], x);
      }
      BecomesLatest(before, last);
    } else if s in latest {
      StaysLatest(before, latest[s], last);
    }
  }

  lemma {:induction false} LatestIsFirstTop(history: seq<Receipt>, s: string)
    ensures s in Latest(history) <==> HasReceipt(history, s)
    ensures s in Latest(history) ==> Latest(history)[s].signalId == s && IsLatest(history, Latest(history)[s])
  {
    if history != [] {
      var before, last := history[..|history| - 1], history[|history| - 1];
      LatestIsFirstTop(before, s);
      LatestNext(before, Latest(before), last, s);
      assert history == before + [last];
    }
  }

  /** A signal is rejected when the first receipt of its highest version is a rejection. */
  lemma RejectedByLatest(history: seq<Receipt>, s: string)
    ensures s in RejectedSignals(history) <==>
      exists r <- history :: IsLatest(history, r) && r.signalId == s && r.availability == REJECTED
  {
    LatestIsFirstTop(history, s);
    if s in Latest(history) {
      forall r | r in history && IsLatest(history, r) && r.signalId == s ensures r == Latest(history)[s] {
        OneLatest(history, r, Latest(history)[s]);
      }
    }
  }

  /** Receipts of the highest version of one signal are all rejections or none is. */
  predicate TiesAgree(history: seq<Receipt>) {
    forall x <- history, y <- history | IsTop(history, x) && IsTop(history, y) && x.signalId == y.signalId ::
      x.availability == REJECTED <==> y.availability == REJECTED
  }

  lemma RejectedByTop(history: seq<Receipt>, s: string)
    requires TiesAgree(history)
    ensures s in RejectedSignals(history) <==>
      exists r <- history :: IsTop(history, r) && r.signalId == s && r.availability == REJECTED
  {
    RejectedByLatest(history, s);
    LatestIsFirstTop(history, s);
    if s in Latest(history) {
      LatestIsTop(history, Latest(history)[s]);
    }
  }

  lemma LatestIsTop(history: seq<Receipt>, r: Receipt)
    requires IsLatest(history, r)
    ensures IsTop(history, r)
  {}

  lemma SameMembers(a: seq<Receipt>, b: seq<Receipt>)
    requires multiset(a) == multiset(b)
    ensures forall r :: r in a <==> r in b
  {
    assert forall r :: r in a <==> r in multiset(a);
    assert forall r :: r in b <==> r in multiset(b);
  }

  lemma SameTops(a: seq<Receipt>, b: seq<Receipt>)
    requires multiset(a) == multiset(b)
    ensures forall r :: IsTop(a, r) <==> IsTop(b, r)
    ensures TiesAgree(a) <==> TiesAgree(b)
  {
    SameMembers(a, b);
  }

  /** A receipt of the highest version that comes first is the latest, whatever follows. */
  lemma {:induction false} FirstTopStays(r: Receipt, rest: seq<Receipt>)
    requires forall x <- rest | x.signalId == r.signalId :: x.moveVersion <= r.moveVersion
    ensures r.signalId in Latest([r] + rest) && Latest([r] + rest)[r.signalId] == r
  {
    var history := [r] + rest;
    if rest == [] {
      assert history[..0] == [];
    } else {
      FirstTopStays(r, rest[..|rest| - 1]);
      assert history[..|history| - 1] == [r] + rest[..|rest| - 1];
    }
  }

  lemma MovedFirst(history: seq<Receipt>, r: Receipt) returns (moved: seq<Receipt>)
    requires IsTop(history, r)
    ensures multiset(moved) == multiset(history)
    ensures r.signalId in RejectedSignals(moved) <==> r.availability == REJECTED
  {
    var i :| 0 <= i < |history| && history[i] == r;
    var rest := history[..i] + history[i + 1..];
    moved := [r] + rest;
    assert history == history[..i] + [r] + history[i + 1..];
    SameMembers(moved, history);
    FirstTopStays(r, rest);
  }

  /** The rejected signals are the same for every order of the history exactly when ties agree. */
  lemma OrderIndependentExactly(history: seq<Receipt>)
    ensures (forall other: seq<Receipt> | multiset(other) == multiset(history) ::
        RejectedSignals(other) == RejectedSignals(history)) <==> TiesAgree(history)
  {
    if TiesAgree(history) {
      forall other: seq<Receipt> | multiset(other) == multiset(history)
        ensures RejectedSignals(other) == RejectedSignals(history)
      {
        SameTops(other, history);
        SameMembers(other, history);
        forall s ensures s in RejectedSignals(other) <==> s in RejectedSignals(history) {
          RejectedByTop(other, s);
          RejectedByTop(history, s);
        }
      }
    } else {
      var x, y :| x in history && y in history && IsTop(history, x) && IsTop(history, y) && x.signalId == y.signalId
        && x.availability == REJECTED && y.availability != REJECTED;
      var a := MovedFirst(history, x);
      var b := MovedFirst(history, y);
      assert RejectedSignals(a) != RejectedSignals(b);
    }
  }

  // ---- What is decided from ----

  function Where<T>(rows: seq<T>, keep: T -> bool): seq<T> {
    if rows == [] then []
    else (if keep(rows[0]) then [rows[0]] else []) + Where(rows[1..], keep)
  }

  lemma {:induction false} WhereHas<T>(rows: seq<T>, keep: T -> bool, row: T)
    ensures multiset(Where(rows, keep))[row] == if keep(row) then multiset(rows)[row] else 0
  {
    if rows != [] {
      WhereHas(rows[1..], keep, row);
      assert rows == [rows[0]] + rows[1..];
    }
  }

  ghost predicate IsSubsequence<T>(kept: seq<T>, rows: seq<T>)
    decreases |rows|
  {
    kept == [] ||
    (rows != [] &&
     (IsSubsequence(kept, rows[1..]) || (kept[0] == rows[0] && IsSubsequence(kept[1..], rows[1..]))))
  }

  /** What is kept stands in the order it had. */
  lemma {:induction false} WhereKeepsOrder<T>(rows: seq<T>, keep: T -> bool)
    ensures IsSubsequence(Where(rows, keep), rows)
  {
    if rows != [] {
      WhereKeepsOrder(rows[1..], keep);
      var rest := Where(rows[1..], keep);
      assert [] + rest == rest && ([rows[0]] + rest)[1..] == rest;
    }
  }

  function SucceededIds(runs: seq<SourceRun>): set<string> {
    set run | run in runs && run.state == SUCCEEDED :: run.id
  }

  function KeepsRow(rejected: set<string>, succeeded: set<string>): SignalRow -> bool {
    (row: SignalRow) => row.sourceRun.state == SUCCEEDED && row.sourceRun.id in succeeded && row.signalId !in rejected
  }

  function EligibleRows(rows: seq<SignalRow>, runs: seq<SourceRun>, history: seq<Receipt>): seq<SignalRow> {
    Where(rows, KeepsRow(RejectedSignals(history), SucceededIds(runs)))
  }

  function KeepsSnapshot(eligible: set<string>, rejected: set<string>): Snapshot -> bool {
    (s: Snapshot) => s.signalId in eligible && s.signalId !in rejected
  }

  function EligibleSnapshots(
    snapshots: seq<Snapshot>, rows: seq<SignalRow>, runs: seq<SourceRun>, history: seq<Receipt>): seq<Snapshot>
  {
    var eligible := set row | row in EligibleRows(rows, runs, history) :: row.signalId;
    Where(snapshots, KeepsSnapshot(eligible, RejectedSignals(history)))
  }

  /** The first receipt of the signal's highest version, if it has any, does not reject it. */
  ghost predicate NotRejected(history: seq<Receipt>, s: string) {
    forall r <- history | IsLatest(history, r) && r.signalId == s :: r.availability != REJECTED
  }

  /** The run succeeded, also by the list of runs, and the signal is not rejected. */
  ghost predicate Eligible(row: SignalRow, runs: seq<SourceRun>, history: seq<Receipt>) {
    && row.sourceRun.state == SUCCEEDED && (exists run <- runs :: run.id == row.sourceRun.id && run.state == SUCCEEDED)
    && NotRejected(history, row.signalId)
  }

  /** A row is decided from, as often as it is stored and in that order, exactly when it is eligible. */
  lemma DecidesFromExactly(rows: seq<SignalRow>, runs: seq<SourceRun>, history: seq<Receipt>, row: SignalRow)
    ensures IsSubsequence(EligibleRows(rows, runs, history), rows)
    ensures multiset(EligibleRows(rows, runs, history))[row]
         == if Eligible(row, runs, history) then multiset(rows)[row] else 0
  {
    RejectedByLatest(history, row.signalId);
    WhereHas(rows, KeepsRow(RejectedSignals(history), SucceededIds(runs)), row);
    WhereKeepsOrder(rows, KeepsRow(RejectedSignals(history), SucceededIds(runs)));
  }

  /** A snapshot is, exactly when some stored row of its signal is. */
  lemma SnapshotsOfEligible(
    snapshots: seq<Snapshot>, rows: seq<SignalRow>, runs: seq<SourceRun>, history: seq<Receipt>, s: Snapshot)
    ensures IsSubsequence(EligibleSnapshots(snapshots, rows, runs, history), snapshots)
    ensures multiset(EligibleSnapshots(snapshots, rows, runs, history))[s] ==
      if exists row <- rows :: row.signalId == s.signalId && Eligible(row, runs, history)
      then multiset(snapshots)[s] else 0
  {
    var kept := EligibleRows(rows, runs, history);
    forall row
      ensures row in kept <==> row in rows && Eligible(row, runs, history)
    {
      DecidesFromExactly(rows, runs, history, row);
      assert row in kept <==> multiset(kept)[row] > 0;
      assert row in rows <==> multiset(rows)[row] > 0;
    }
    RejectedByLatest(history, s.signalId);
    var eligible := set row | row in kept :: row.signalId;
    WhereHas(snapshots, KeepsSnapshot(eligible, RejectedSignals(history)), s);
    WhereKeepsOrder(snapshots, KeepsSnapshot(eligible, RejectedSignals(history)));
  }

  /** `validUntil` of a recomputed move: the earlier of the draft's and the stored one. */
  function BoundedValidity(draft: int, stored: int): (r: int)
    ensures r <= stored && r <= draft && (r == draft || r == stored)
  {
    if draft <= stored then draft else stored
  }
}
