/**
 Two rotations at once. Nothing in the program keeps a second process from starting while a first one
 runs; `RotationProtocol` looks at runs that take turns. A run that finds no record left to unlink ends
 there, with an error.

 `TakingTurnsIsSafe` shows that this is all its safety needs, and `LosesExactly` which single steps take
 the live passwords off the disk. `OverlapLoses` is a schedule in which both transactions succeed, both
 runs write all their files, and the database is left with passwords that none of them holds.
 */
module RotationOverlap {
  import opened RoleRotation
  import opened RotationProtocol
  import opened Wrappers

  /** The shared files and database, and the two runs. */
  datatype Shared = Shared(files: Inventories, pending: Option<Passwords>, db: Passwords,
                           first: Option<Job>, second: Option<Job>)

  datatype Turn = Turn(isFirst: bool, event: Event)

  /** What one of the two runs sees. */
  function View(s: Shared, isFirst: bool): World {
    World(s.files, s.pending, s.db, if isFirst then s.first else s.second)
  }

  function With(s: Shared, isFirst: bool, w: World): Shared {
    Shared(w.files, w.pending, w.db, if isFirst then w.job else s.first, if isFirst then s.second else w.job)
  }

  ghost function Take(s: Shared, turn: Turn): Shared {
    With(s, turn.isFirst, Step(View(s, turn.isFirst), turn.event))
  }

  ghost function TakeAll(s: Shared, turns: seq<Turn>): Shared
    decreases |turns|
  {
    if turns == [] then s else TakeAll(Take(s, turns[0]), turns[1..])
  }

  ghost predicate OnDisk(s: Shared) {
    Recorded(View(s, true))
  }

  // ---- Runs that take turns ----

  /** A run is not begun while the other one is there. */
  ghost predicate TakeTurns(s: Shared, turns: seq<Turn>)
    decreases |turns|
  {
    turns == [] ||
    (CanHappen(turns[0].event)
     && (turns[0].event.Begin? ==> View(s, !turns[0].isFirst).job == None)
     && TakeTurns(Take(s, turns[0]), turns[1..]))
  }

  ghost predicate OneAtATime(s: Shared) {
    && (s.first == None || s.second == None)
    && Inv(View(s, s.second == None))
  }

  lemma TurnKeepsInv(s: Shared, turn: Turn)
    requires OneAtATime(s) && CanHappen(turn.event)
    requires turn.event.Begin? ==> View(s, !turn.isFirst).job == None
    ensures OneAtATime(Take(s, turn))
  {
    hide Inv;
    var running := s.second == None;
    if turn.isFirst == running {
      StepKeepsInv(View(s, running), turn.event);
      SameInv(View(Take(s, turn), running), View(Take(s, turn), !running));
    } else if View(s, running).job == None {
      SameInv(View(s, running), View(s, !running));
      StepKeepsInv(View(s, !running), turn.event);
      SameInv(View(Take(s, turn), running), View(Take(s, turn), !running));
    } else {
      IdleStays(View(s, !running), turn.event);
    }
  }

  lemma SameInv(v: World, w: World)
    ensures v == w ==> (Inv(v) <==> Inv(w))
  {}

  lemma IdleStays(w: World, e: Event)
    requires w.job == None && !e.Begin?
    ensures Step(w, e) == w
  {}

  /** While a run is begun only when the other is over, the live passwords stay on disk. */
  lemma {:induction false} TakingTurnsIsSafe(s: Shared, turns: seq<Turn>)
    requires OneAtATime(s) && TakeTurns(s, turns)
    ensures OnDisk(TakeAll(s, turns))
    decreases |turns|
  {
    if turns != [] {
      TurnKeepsInv(s, turns[0]);
      TakingTurnsIsSafe(Take(s, turns[0]), turns[1..]);
    }
  }

  // ---- What no interleaving changes ----

  lemma TurnKeepsTheRest(first: Inventories, s: Shared, turn: Turn)
    requires KeepsTheRest(first, View(s, true)) && KeepsTheRest(first, View(s, false))
    ensures KeepsTheRest(first, View(Take(s, turn), true)) && KeepsTheRest(first, View(Take(s, turn), false))
  {
    hide Step, DifferInPasswords;
    StepKeepsTheRest(first, View(s, turn.isFirst), turn.event);
  }

  /** However two runs interleave, and whatever they lose, they change nothing but passwords. */
  lemma {:induction false} OverlapChangesOnlyPasswords(first: Inventories, s: Shared, turns: seq<Turn>)
    requires KeepsTheRest(first, View(s, true)) && KeepsTheRest(first, View(s, false))
    ensures DifferInPasswords(first, TakeAll(s, turns).files)
    decreases |turns|
  {
    hide Take, DifferInPasswords;
    if turns != [] {
      TurnKeepsTheRest(first, s, turns[0]);
      OverlapChangesOnlyPasswords(first, Take(s, turns[0]), turns[1..]);
    }
  }

  // ---- Runs that overlap ----

  /** What a step is about to put into the secrets inventory, the pending record and the database. */
  ghost predicate Loses(w: World, e: Event) {
    var held := Records(w.files.secrets, w.db);
    && w.job.Some?
    && match (e, w.job.value.pc)
       case (Sql(applied, _), RunSql) =>
         applied && !Records(w.files.secrets, w.job.value.passwords) && w.pending != Some(w.job.value.passwords)
       case (Advance, WritePending) => !held && w.job.value.passwords != w.db
       case (Advance, WriteSecrets) => !Records(w.job.value.plan.secrets, w.db) && w.pending != Some(w.db)
       case (Advance, Unlink) => !held
       case _ => false
  }

  /**
   From a state with the live passwords on disk, a step of either run takes them off it exactly when it
   applies passwords that are neither recorded nor pending, replaces or removes a record that alone has the
   live ones, or writes an inventory without them.
   */
  lemma LosesExactly(s: Shared, turn: Turn)
    requires OnDisk(s)
    ensures !OnDisk(Take(s, turn)) <==> Loses(View(s, turn.isFirst), turn.event)
  {
    hide Records, PlanJob, IsRecord, AreGenerated;
  }

  /** Both runs write all their files and come to their end. */
  ghost function Finish(s: Shared): Shared {
    var done := With(s, true, Run(View(s, true), WRITES));
    With(done, false, Run(View(done, false), WRITES))
  }

  /** Both begin before either has left a record; the second one's transaction comes first. */
  const OVERLAP := [
    Turn(true, Advance), Turn(false, Advance),
    Turn(false, Sql(true, true)), Turn(true, Sql(true, true))]

  /** After the last transaction nothing on disk has the live passwords, and when both are done it stays so. */
  lemma OverlapLoses(files: Inventories, db: Passwords, p: Passwords, q: Passwords, k: Kind)
    requires WellFormed(files) && Records(files.secrets, db)
    requires IsRecord(p) && IsFresh(files.secrets, p) && IsRecord(q) && IsFresh(files.secrets, q) && p[k] != q[k]
    ensures var begun := Take(Take(Shared(files, None, db, None, None),
                                   Turn(true, Begin(false, p))), Turn(false, Begin(false, q)));
      var run := TakeAll(begun, OVERLAP);
      && run.db == p && !OnDisk(run)
      && Finish(run) == Shared(Plan(files, q), None, p, None, None) && !OnDisk(Finish(run))
  {
    hide Take, TakeAll, Finish, WellFormed, IsFresh, Records, Plan;
    var planP, planQ := Plan(files, p), Plan(files, q);
    BothBegin(files, db, p, q);
    OverlapRuns(files, db, planP, planQ, p, q);
    var run := Shared(files, Some(q), p, Some(Job(WriteSecrets, planP, p)), Some(Job(WriteSecrets, planQ, q)));
    FreshIsNotRecorded(files.secrets, p);
    BothFinish(run, planP, planQ, p, q);
    OthersPlanned(files, p, q, k);
  }

  lemma OthersPlanned(files: Inventories, p: Passwords, q: Passwords, k: Kind)
    requires WellFormed(files) && IsRecord(p) && IsRecord(q) && p[k] != q[k]
    ensures !Records(Plan(files, q).secrets, p)
  {
    PlanRecords(files, q);
    assert Plan(files, q).secrets[PasswordOf(k)] == Plain(q[k]);
  }

  lemma BothBegin(files: Inventories, db: Passwords, p: Passwords, q: Passwords)
    requires WellFormed(files)
    requires IsRecord(p) && IsFresh(files.secrets, p) && IsRecord(q) && IsFresh(files.secrets, q)
    ensures Take(Take(Shared(files, None, db, None, None), Turn(true, Begin(false, p))), Turn(false, Begin(false, q)))
         == Shared(files, None, db,
                   Some(Job(WritePending, Plan(files, p), p)), Some(Job(WritePending, Plan(files, q), q)))
  {
    hide WellFormed, IsFresh, Plan;
  }

  lemma OverlapRuns(
    files: Inventories, db: Passwords, planP: Inventories, planQ: Inventories, p: Passwords, q: Passwords)
    ensures var begun :=
        Shared(files, None, db, Some(Job(WritePending, planP, p)), Some(Job(WritePending, planQ, q)));
      TakeAll(begun, OVERLAP)
         == Shared(files, Some(q), p, Some(Job(WriteSecrets, planP, p)), Some(Job(WriteSecrets, planQ, q)))
  {
    var s := Shared(files, None, db, Some(Job(WritePending, planP, p)), Some(Job(WritePending, planQ, q)));
    FourTurns(s, OVERLAP);
  }

  lemma FourTurns(s: Shared, turns: seq<Turn>)
    requires |turns| == 4
    ensures TakeAll(s, turns) == Take(Take(Take(Take(s, turns[0]), turns[1]), turns[2]), turns[3])
  {
    hide Take;
    var s1 := Take(s, turns[0]);
    var s2 := Take(s1, turns[1]);
    var s3 := Take(s2, turns[2]);
    assert turns[1..][0] == turns[1] && turns[1..][1..] == turns[2..];
    assert turns[2..][0] == turns[2] && turns[2..][1..] == turns[3..];
    assert turns[3..][0] == turns[3] && turns[3..][1..] == [];
    assert TakeAll(s1, turns[1..]) == TakeAll(s2, turns[2..]) == TakeAll(s3, turns[3..]);
    assert TakeAll(s3, turns[3..]) == TakeAll(Take(s3, turns[3]), []);
  }

  lemma BothFinish(run: Shared, planP: Inventories, planQ: Inventories, p: Passwords, q: Passwords)
    requires run.first == Some(Job(WriteSecrets, planP, p)) && run.second == Some(Job(WriteSecrets, planQ, q))
    ensures Finish(run) == Shared(planQ, None, run.db, None, None)
  {
    hide Run;
    FinishWrites(View(run, true), run.first.value);
    var done := With(run, true, Run(View(run, true), WRITES));
    FinishWrites(View(done, false), done.second.value);
  }
}
