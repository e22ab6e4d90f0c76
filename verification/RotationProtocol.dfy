/**
 `rotateRuntimeRolePasswords` as a protocol: fresh runs, `--resume` runs, kills between any two steps and
 SQL calls that report failure whether or not they took effect. One run at a time.

 A run is a sequence of atomic steps: reading and planning, writing the pending record, the SQL
 transaction, four file replacements by `rename`, and unlinking the record. `PasswordsStayRecorded`
 is the safety result, `ResumeWorksExactlyBeforeSecrets` says when a run can be taken up again.
 */
module RotationProtocol {
  import opened RoleRotation
  import opened Wrappers

  /** The step a run is about to take. */
  datatype Pc =
    WritePending | RunSql | WriteSecrets | WriteUrls | WriteMigrator | WriteProduction | Unlink

  datatype Job = Job(pc: Pc, plan: Inventories, passwords: Passwords)

  /** The files, the pending record, the passwords the database accepts, and the run in progress. */
  datatype World = World(files: Inventories, pending: Option<Passwords>, db: Passwords, job: Option<Job>)

  datatype Event =
    | Begin(resume: bool, generated: Passwords)
    | Sql(applied: bool, reported: bool)
    | Advance
    | Kill

  /** What `parsePending` accepts. */
  ghost predicate IsRecord(p: Passwords) {
    AreGenerated(p) && AreUnique(p)
  }

  ghost function PlanJob(files: Inventories, p: Passwords, pc: Pc): Option<Job> {
    if !IsRecord(p) then None
    else
      match Planned(files, p)
      case None => None
      case Some(plan) => Some(Job(pc, plan, p))
  }

  /** Reading and planning: it refuses without a trace, or leaves a run about to take its first step. */
  ghost function Start(w: World, resume: bool, generated: Passwords): World {
    if w.job.Some? then w
    else
      match w.pending
      case Some(recorded) => if resume then w.(job := PlanJob(w.files, recorded, RunSql)) else w
      case None => if resume then w else w.(job := PlanJob(w.files, generated, WritePending))
  }

  /** The linked transaction, all or nothing; a reported failure ends the run. */
  ghost function RunTransaction(w: World, applied: bool, reported: bool): World {
    if w.job == None || w.job.value.pc != RunSql then w
    else
      var after := if applied then w.(db := w.job.value.passwords) else w;
      if reported then after.(job := Some(w.job.value.(pc := WriteSecrets))) else after.(job := None)
  }

  /** One file operation. */
  ghost function WriteNext(w: World): World {
    if w.job == None then w
    else
      var job, files := w.job.value, w.files;
      match job.pc
      case WritePending => w.(pending := Some(job.passwords), job := Some(job.(pc := RunSql)))
      case RunSql => w
      case WriteSecrets => w.(files := files.(secrets := job.plan.secrets), job := Some(job.(pc := WriteUrls)))
      case WriteUrls => w.(files := files.(urls := job.plan.urls), job := Some(job.(pc := WriteMigrator)))
      case WriteMigrator =>
        w.(files := files.(migrator := job.plan.migrator), job := Some(job.(pc := WriteProduction)))
      case WriteProduction => w.(files := files.(production := job.plan.production), job := Some(job.(pc := Unlink)))
      case Unlink => w.(pending := None, job := None)
  }

  ghost function Step(w: World, e: Event): World {
    match e
    case Begin(resume, generated) => Start(w, resume, generated)
    case Sql(applied, reported) => RunTransaction(w, applied, reported)
    case Advance => WriteNext(w)
    case Kill => w.(job := None)
  }

  /** A reported success is one; a reported failure may have taken effect. */
  predicate CanHappen(e: Event) {
    e.Sql? && e.reported ==> e.applied
  }

  ghost function Run(w: World, events: seq<Event>): World
    decreases |events|
  {
    if events == [] then w else Run(Step(w, events[0]), events[1..])
  }

  ghost predicate AllCanHappen(events: seq<Event>) {
    forall e <- events :: CanHappen(e)
  }

  // ---- What is kept ----

  /** One role's URLs carry its password. */
  ghost predicate UrlAgrees(i: Inventories, p: Passwords, k: Kind) {
    && k in p && HasPinned(i.urls, UrlOf(k), k) && i.urls[UrlOf(k)].password == p[k]
    && UrlOf(k) in i.production && i.production[UrlOf(k)] == i.urls[UrlOf(k)]
  }

  /** Files that all carry the passwords `p`. */
  ghost predicate Agree(i: Inventories, p: Passwords) {
    && Records(i.secrets, p)
    && (forall k <- URL_ROLE_KINDS :: UrlAgrees(i, p, k))
    && Migrator in p && HasPinned(i.migrator, DirectUrl, Migrator) && i.migrator[DirectUrl].password == p[Migrator]
  }

  /** The live passwords are on disk: in the secrets inventory or in the pending record. */
  ghost predicate Recorded(w: World) {
    Records(w.files.secrets, w.db) || w.pending == Some(w.db)
  }

  ghost predicate JobInv(w: World, job: Job) {
    var p := job.passwords;
    && IsRecord(p)
    && (if job.pc == WritePending then w.pending == None else w.pending == Some(p))
    && (match job.pc
        case WritePending => WellFormed(w.files) && job.plan == Plan(w.files, p) && IsFresh(w.files.secrets, p)
        case RunSql => WellFormed(w.files) && job.plan == Plan(w.files, p)
        case WriteSecrets => w.db == p && WellFormed(w.files) && job.plan == Plan(w.files, p)
        case _ =>
          && w.db == p && Agree(job.plan, p) && w.files.secrets == job.plan.secrets
          && (job.pc != WriteUrls ==> w.files.urls == job.plan.urls)
          && (job.pc == WriteProduction || job.pc == Unlink ==> w.files.migrator == job.plan.migrator)
          && (job.pc == Unlink ==> w.files.production == job.plan.production))
  }

  /** A record is either still to be carried out in full, or the secrets inventory has it already. */
  ghost predicate PendingInv(w: World, p: Passwords) {
    && IsRecord(p)
    && (Records(w.files.secrets, p) ==> w.db == p)
    && (!Records(w.files.secrets, p) ==> WellFormed(w.files) && IsFresh(w.files.secrets, p))
  }

  ghost predicate Inv(w: World) {
    && Recorded(w)
    && (w.pending == None ==> Records(w.files.secrets, w.db))
    && (w.pending.Some? ==> PendingInv(w, w.pending.value))
    && (w.job.Some? ==> JobInv(w, w.job.value))
  }

  /** Before the first rotation: no record, no run, and the secrets inventory is right. */
  ghost predicate IsInitial(w: World) {
    w.pending == None && w.job == None && Records(w.files.secrets, w.db)
  }

  lemma PlanRecords(i: Inventories, p: Passwords)
    requires WellFormed(i) && AreGenerated(p)
    ensures Records(Plan(i, p).secrets, p)
  {
    forall k: Kind
      ensures PasswordOf(k) in Plan(i, p).secrets && Plan(i, p).secrets[PasswordOf(k)] == Plain(p[k])
    {
      AllKinds(k);
      assert PasswordOf(k) in SecretNames();
    }
  }

  lemma PlanUrl(i: Inventories, p: Passwords, k: Kind)
    requires WellFormed(i) && AreGenerated(p) && k in URL_ROLE_KINDS
    ensures var plan := Plan(i, p);
      && HasPinned(plan.urls, UrlOf(k), k) && plan.urls[UrlOf(k)].password == p[k]
      && UrlOf(k) in plan.production && plan.production[UrlOf(k)] == plan.urls[UrlOf(k)]
  {
    assert UrlOf(k) in UrlNames();
    assert HasPinned(i.urls, UrlOf(k), k);
  }

  lemma PlanAgrees(i: Inventories, p: Passwords)
    requires WellFormed(i) && AreGenerated(p)
    ensures Agree(Plan(i, p), p)
  {
    PlanRecords(i, p);
    forall k | k in URL_ROLE_KINDS
      ensures UrlAgrees(Plan(i, p), p, k)
    {
      PlanUrl(i, p, k);
    }
    PlanMigrator(i, p);
  }

  lemma PlanMigrator(i: Inventories, p: Passwords)
    requires WellFormed(i) && AreGenerated(p)
    ensures var plan := Plan(i, p).migrator;
      HasPinned(plan, DirectUrl, Migrator) && plan[DirectUrl].password == p[Migrator]
  {}

  lemma StartKeepsInv(w: World, resume: bool, generated: Passwords)
    requires Inv(w)
    ensures Inv(Start(w, resume, generated))
  {}

  lemma SqlKeepsInv(w: World, applied: bool, reported: bool)
    requires Inv(w) && (reported ==> applied)
    ensures Inv(RunTransaction(w, applied, reported))
  {}

  lemma AdvanceKeepsInv(w: World)
    requires Inv(w)
    ensures Inv(WriteNext(w))
  {
    hide WellFormed, Agree, Plan, IsFresh, Records;
    if w.job.Some? {
      var p := w.job.value.passwords;
      match w.job.value.pc
      case WritePending => FreshIsNotRecorded(w.files.secrets, p);
      case RunSql =>
      case WriteSecrets =>
        PlanAgrees(w.files, p);
        AgreedAreRecorded(Plan(w.files, p), p);
      case _ => AgreedAreRecorded(w.job.value.plan, p);
    }
  }

  lemma FreshIsNotRecorded(secrets: Inventory, p: Passwords)
    requires AreGenerated(p) && IsFresh(secrets, p)
    ensures !Records(secrets, p)
  {
    assert PasswordOf(Migrator) in secrets ==> secrets[PasswordOf(Migrator)] != Plain(p[Migrator]);
  }

  lemma AgreedAreRecorded(i: Inventories, p: Passwords)
    requires Agree(i, p)
    ensures Records(i.secrets, p)
  {}

  lemma StepKeepsInv(w: World, e: Event)
    requires Inv(w) && CanHappen(e)
    ensures Inv(Step(w, e))
  {
    match e
    case Begin(resume, generated) => StartKeepsInv(w, resume, generated);
    case Sql(applied, reported) => SqlKeepsInv(w, applied, reported);
    case Advance => AdvanceKeepsInv(w);
    case Kill =>
  }

  lemma {:induction false} RunKeepsInv(w: World, events: seq<Event>)
    requires Inv(w) && AllCanHappen(events)
    ensures Inv(Run(w, events))
    decreases |events|
  {
    if events != [] {
      assert CanHappen(events[0]);
      StepKeepsInv(w, events[0]);
      RunKeepsInv(Step(w, events[0]), events[1..]);
    }
  }

  // ---- Safety ----

  lemma {:induction false} RunConcat(w: World, a: seq<Event>, b: seq<Event>)
    ensures Run(w, a + b) == Run(Run(w, a), b)
    decreases |a|
  {
    if a == [] {
      assert a + b == b;
    } else {
      RunConcat(Step(w, a[0]), a[1..], b);
      assert (a + b)[1..] == a[1..] + b;
    }
  }

  /** Wherever runs were killed and whatever the database reported, no live password is lost. */
  lemma PasswordsStayRecorded(w: World, events: seq<Event>)
    requires IsInitial(w) && AllCanHappen(events)
    ensures Recorded(Run(w, events))
  {
    RunKeepsInv(w, events);
  }

  /** A pending record stays as it is until the step that unlinks it, when every file carries it. */
  lemma PendingKeptUntilDone(w: World, events: seq<Event>, e: Event)
    requires IsInitial(w) && AllCanHappen(events)
    ensures var before := Run(w, events);
      before.pending.Some? && Step(before, e).pending != before.pending ==>
        && Step(before, e).pending == None
        && before.db == before.pending.value
        && Agree(before.files, before.pending.value)
  {
    RunKeepsInv(w, events);
    var before := Run(w, events);
    if before.pending.Some? && Step(before, e).pending != before.pending {
      UnlinkAgrees(before, e);
    }
  }

  // ---- What no run changes ----

  predicate SameEndpoint(v: Value, u: Value) {
    v == u || (v.Url? && u.Url? && v.endpoint == u.endpoint)
  }

  /** The same names, and the same endpoint in every URL. */
  ghost predicate SameEndpoints(a: Inventory, b: Inventory) {
    a.Keys == b.Keys && forall name <- a :: SameEndpoint(a[name], b[name])
  }

  /** The same names, and the same values but for the passwords in the URLs of the runtime roles. */
  ghost predicate SameRest(a: Inventory, b: Inventory) {
    && a.Keys == b.Keys
    && forall name <- a ::
      if name.UrlOf? && name.kind != Migrator then SameEndpoint(a[name], b[name]) else a[name] == b[name]
  }

  ghost predicate DifferInPasswords(i: Inventories, j: Inventories) {
    && i.secrets.Keys == j.secrets.Keys && SameEndpoints(i.urls, j.urls) && SameEndpoints(i.migrator, j.migrator)
    && SameRest(i.production, j.production)
  }

  lemma PlanDiffersInPasswords(i: Inventories, p: Passwords)
    requires AreGenerated(p) && Planned(i, p).Some?
    ensures DifferInPasswords(i, Planned(i, p).value)
  {
    PlanKeepsEndpoints(i, p);
    PlanKeepsProduction(i, p);
    hide AreGenerated, Planned, SameEndpoints, SameRest;
    PlanChangesPasswordsOnly(i, p);
  }

  lemma PlanKeepsEndpoints(i: Inventories, p: Passwords)
    requires AreGenerated(p) && Planned(i, p).Some?
    ensures SameEndpoints(i.urls, Planned(i, p).value.urls)
    ensures SameEndpoints(i.migrator, Planned(i, p).value.migrator)
  {
    PlanChangesPasswordsOnly(i, p);
    PlansExactly(i, p);
    hide AreGenerated, Planned;
    forall name <- i.urls ensures SameEndpoint(i.urls[name], Planned(i, p).value.urls[name]) {
      assert IsRuntimeUrl(i.urls, name.kind);
    }
  }

  lemma PlanKeepsProduction(i: Inventories, p: Passwords)
    requires AreGenerated(p) && Planned(i, p).Some?
    ensures SameRest(i.production, Planned(i, p).value.production)
  {
    PlanChangesPasswordsOnly(i, p);
    PlansExactly(i, p);
    hide AreGenerated, Planned;
    forall name <- i.production | name.UrlOf? && name.kind != Migrator
      ensures SameEndpoint(i.production[name], Planned(i, p).value.production[name])
    {
      assert IsRuntimeUrl(i.production, name.kind);
    }
  }

  /** The files, and what a run in progress will write, differ from the first files in passwords only. */
  ghost predicate KeepsTheRest(first: Inventories, w: World) {
    DifferInPasswords(first, w.files) && (w.job.Some? ==> DifferInPasswords(first, w.job.value.plan))
  }

  lemma DifferTwice(i: Inventories, j: Inventories, k: Inventories)
    requires DifferInPasswords(i, j) && DifferInPasswords(j, k)
    ensures DifferInPasswords(i, k)
  {}

  lemma PartsDiffer(first: Inventories, i: Inventories, j: Inventories)
    requires DifferInPasswords(first, i) && DifferInPasswords(first, j)
    ensures DifferInPasswords(first, i.(secrets := j.secrets)) && DifferInPasswords(first, i.(urls := j.urls))
    ensures DifferInPasswords(first, i.(migrator := j.migrator))
    ensures DifferInPasswords(first, i.(production := j.production))
  {
    hide SameEndpoints, SameRest;
  }

  lemma StepKeepsTheRest(first: Inventories, w: World, e: Event)
    requires KeepsTheRest(first, w)
    ensures KeepsTheRest(first, Step(w, e))
  {
    hide DifferInPasswords, Planned;
    if w.job.Some? {
      PartsDiffer(first, w.files, w.job.value.plan);
    } else if Step(w, e).job.Some? {
      var p := if w.pending.Some? then w.pending.value else e.generated;
      PlanDiffersInPasswords(w.files, p);
      DifferTwice(first, w.files, Planned(w.files, p).value);
    }
  }

  /**
   Whatever happens, a rotation touches nothing but passwords: in every state any run reaches, the files have
   the names they had, the role URLs their endpoints, and production every other value.
   */
  lemma RotationsChangeOnlyPasswords(w: World, events: seq<Event>)
    requires w.job == None
    ensures DifferInPasswords(w.files, Run(w, events).files)
  {
    RunKeepsTheRest(w.files, w, events);
  }

  lemma {:induction false} RunKeepsTheRest(first: Inventories, w: World, events: seq<Event>)
    requires KeepsTheRest(first, w)
    ensures KeepsTheRest(first, Run(w, events))
    decreases |events|
  {
    hide DifferInPasswords, Step;
    if events != [] {
      StepKeepsTheRest(first, w, events[0]);
      RunKeepsTheRest(first, Step(w, events[0]), events[1..]);
    }
  }

  // ---- Taking a run up again ----

  const WRITES := [Advance, Advance, Advance, Advance, Advance]

  /** A run nobody kills, with the answer of the database. */
  function WholeRun(resume: bool, generated: Passwords, applied: bool, reported: bool): seq<Event> {
    [Begin(resume, generated)] + (if resume then [] else [Advance]) + [Sql(applied, reported)] + WRITES
  }

  function Undisturbed(resume: bool, generated: Passwords): seq<Event> {
    WholeRun(resume, generated, true, true)
  }

  /** The state a run has when it calls the database. */
  ghost function Ready(w: World, resume: bool, generated: Passwords): World {
    var begun := Start(w, resume, generated);
    if resume then begun else WriteNext(begun)
  }

  lemma RunToDatabase(w: World, resume: bool, generated: Passwords, applied: bool, reported: bool)
    ensures Run(w, WholeRun(resume, generated, applied, reported))
         == Run(RunTransaction(Ready(w, resume, generated), applied, reported), WRITES)
  {
    var begin, sql := [Begin(resume, generated)], [Sql(applied, reported)];
    var ready := Ready(w, resume, generated);
    RunOne(w, begin[0]);
    if resume {
      assert WholeRun(resume, generated, applied, reported) == begin + (sql + WRITES);
      RunConcat(w, begin, sql + WRITES);
    } else {
      assert WholeRun(resume, generated, applied, reported) == begin + ([Advance] + (sql + WRITES));
      RunConcat(w, begin, [Advance] + (sql + WRITES));
      RunConcat(Step(w, begin[0]), [Advance], sql + WRITES);
      RunOne(Step(w, begin[0]), Advance);
    }
    RunConcat(ready, sql, WRITES);
    RunOne(ready, sql[0]);
  }

  /** Database and all four files carry the passwords, and nothing is pending. */
  ghost predicate Converged(w: World, p: Passwords) {
    w.job == None && w.pending == None && w.db == p && Agree(w.files, p)
  }

  lemma FinishWrites(w: World, job: Job)
    requires w.job == Some(job) && job.pc == WriteSecrets
    ensures Run(w, WRITES) == World(job.plan, None, w.db, None)
  {
    hide Run;
    RunFive(w);
  }

  lemma RunFive(w: World)
    ensures Run(w, [Advance, Advance, Advance, Advance, Advance])
         == WriteNext(WriteNext(WriteNext(WriteNext(WriteNext(w)))))
  {
    assert [Advance, Advance, Advance, Advance, Advance] == [Advance, Advance] + [Advance, Advance, Advance];
    RunConcat(w, [Advance, Advance], [Advance, Advance, Advance]);
    RunTwo(w);
    var w2 := WriteNext(WriteNext(w));
    assert [Advance, Advance, Advance] == [Advance, Advance] + [Advance];
    RunConcat(w2, [Advance, Advance], [Advance]);
    RunTwo(w2);
    RunOne(WriteNext(WriteNext(w2)), Advance);
  }

  lemma RunOne(w: World, e: Event)
    ensures Run(w, [e]) == Step(w, e)
  {
    assert [e][1..] == [];
  }

  lemma RunTwo(w: World)
    ensures Run(w, [Advance, Advance]) == WriteNext(WriteNext(w))
  {
    assert [Advance, Advance][1..] == [Advance];
    RunOne(WriteNext(w), Advance);
  }

  lemma BeginsExactly(w: World, resume: bool, generated: Passwords)
    requires w.job == None
    ensures var p := if w.pending.Some? then w.pending.value else generated;
      Start(w, resume, generated).job.Some? <==>
        && resume == w.pending.Some?
        && IsRecord(p) && Planned(w.files, p).Some?
  {
    hide IsPassword, Planned, AreUnique;
  }

  /**
   A run that begins finishes with everything agreeing; one that is refused changes nothing. It begins for a
   record with `--resume` and for none without it, when the passwords are well formed and can be planned.
   */
  lemma UndisturbedRun(w: World, resume: bool, generated: Passwords)
    requires Inv(w) && w.job == None
    ensures var p := if w.pending.Some? then w.pending.value else generated;
      if resume == w.pending.Some? && IsRecord(p) && Planned(w.files, p).Some?
      then Converged(Run(w, Undisturbed(resume, generated)), p)
      else Run(w, Undisturbed(resume, generated)) == w
  {
    BeginsExactly(w, resume, generated);
    hide Run, Planned, WellFormed, IsFresh, AreUnique, Agree;
    RunToDatabase(w, resume, generated, true, true);
    var begun, ready := Start(w, resume, generated), Ready(w, resume, generated);
    if begun.job.Some? {
      var after := RunTransaction(ready, true, true);
      PlanAgrees(w.files, begun.job.value.passwords);
      FinishWrites(after, after.job.value);
    } else {
      NothingHappens(w, WRITES);
    }
  }

  lemma {:induction false} NothingHappens(w: World, events: seq<Event>)
    requires w.job == None && forall e <- events :: !e.Begin?
    ensures Run(w, events) == w
    decreases |events|
  {
    if events != [] {
      assert events[0] in events;
      assert Step(w, events[0]) == w;
      NothingHappens(w, events[1..]);
    }
  }

  /**
   Whether `--resume` completes a rotation that was cut off, after any history: exactly when the
   secrets inventory had not been replaced yet. It then uses the recorded passwords again.
   */
  lemma ResumeWorksExactlyBeforeSecrets(w0: World, events: seq<Event>, ignored: Passwords)
    requires IsInitial(w0) && AllCanHappen(events)
    requires Run(w0, events).job == None && Run(w0, events).pending.Some?
    ensures var w := Run(w0, events);
      !Records(w.files.secrets, w.pending.value) <==>
      Converged(Run(w, Undisturbed(true, ignored)), w.pending.value)
  {
    RunKeepsInv(w0, events);
    var w := Run(w0, events);
    var p := w.pending.value;
    UndisturbedRun(w, true, ignored);
    if Records(w.files.secrets, p) {
      assert !IsFresh(w.files.secrets, p) by {
        assert PasswordOf(Migrator) in w.files.secrets && w.files.secrets[PasswordOf(Migrator)] == Plain(p[Migrator]);
      }
    }
  }

  /** Killed after the secrets were replaced, no run of either kind ever does anything again. */
  lemma {:induction false} StuckAfterSecrets(w: World, events: seq<Event>)
    requires Inv(w) && w.job == None && w.pending.Some? && Records(w.files.secrets, w.pending.value)
    ensures Run(w, events) == w
    decreases |events|
  {
    if events != [] {
      var p := w.pending.value;
      assert !IsFresh(w.files.secrets, p) by {
        assert PasswordOf(Migrator) in w.files.secrets && w.files.secrets[PasswordOf(Migrator)] == Plain(p[Migrator]);
      }
      assert Step(w, events[0]) == w;
      StuckAfterSecrets(w, events[1..]);
    }
  }

  /**
   The window is real: from every sound beginning, a kill right after the first inventory write leaves
   files that still name the old passwords in their URLs, and no later run repairs them.
   */
  lemma KilledAfterSecretsIsNotRepaired(w: World, p: Passwords, later: seq<Event>)
    requires IsInitial(w) && WellFormed(w.files) && Agree(w.files, w.db)
    requires IsRecord(p) && IsFresh(w.files.secrets, p)
    ensures var killed := Run(w, [Begin(false, p), Advance, Sql(true, true), Advance, Kill]);
      && killed.db == p && Records(killed.files.secrets, p)
      && killed.files.urls == w.files.urls && !Agree(killed.files, p)
      && Run(killed, later) == killed
  {
    KilledWorld(w, p);
    var killed := World(w.files.(secrets := Plan(w.files, p).secrets), Some(p), p, None);
    PlanRecords(w.files, p);
    OldUrlsDisagree(w.files, w.db, p);
    assert Inv(killed);
    StuckAfterSecrets(killed, later);
  }

  lemma KilledWorld(w: World, p: Passwords)
    requires w.pending == None && w.job == None
    requires WellFormed(w.files) && IsRecord(p) && IsFresh(w.files.secrets, p)
    ensures Run(w, [Begin(false, p), Advance, Sql(true, true), Advance, Kill])
         == World(w.files.(secrets := Plan(w.files, p).secrets), Some(p), p, None)
  {
    hide Run, WellFormed, IsFresh, Plan, AreUnique;
    var plan := Plan(w.files, p);
    var events := [Begin(false, p), Advance, Sql(true, true), Advance, Kill];
    RunPrefix(w, events);
    var w1 := w.(job := Some(Job(WritePending, plan, p)));
    assert Step(w, events[0]) == w1;
    var w2 := World(w.files, Some(p), w.db, Some(Job(RunSql, plan, p)));
    assert Step(w1, events[1]) == w2;
    var w3 := World(w.files, Some(p), p, Some(Job(WriteSecrets, plan, p)));
    assert Step(w2, events[2]) == w3;
    var w4 := World(w.files.(secrets := plan.secrets), Some(p), p, Some(Job(WriteUrls, plan, p)));
    assert Step(w3, events[3]) == w4;
  }

  lemma RunPrefix(w: World, events: seq<Event>)
    requires |events| == 5
    ensures Run(w, events) == Step(Step(Step(Step(Step(w, events[0]), events[1]), events[2]), events[3]), events[4])
  {
    var w1 := Step(w, events[0]);
    var w2 := Step(w1, events[1]);
    var w3 := Step(w2, events[2]);
    var w4 := Step(w3, events[3]);
    assert Run(w, events) == Run(w1, events[1..]);
    assert events[1..][1..] == events[2..] && events[2..][1..] == events[3..] && events[3..][1..] == events[4..];
    assert Run(w1, events[1..]) == Run(w2, events[2..]);
    assert Run(w2, events[2..]) == Run(w3, events[3..]);
    assert Run(w3, events[3..]) == Run(w4, events[4..]);
    assert events[4..] == [events[4]];
    RunOne(w4, events[4]);
  }

  lemma OldUrlsDisagree(i: Inventories, old_: Passwords, p: Passwords)
    requires Agree(i, old_) && UrlAgrees(i, old_, Public) && AreGenerated(p) && IsFresh(i.secrets, p)
    ensures i.urls[UrlOf(Public)].password != p[Public]
  {
    AllKinds(Public);
    assert UrlAgrees(i, old_, Public);
    assert i.secrets[PasswordOf(Public)] == Plain(old_[Public]);
  }

  // ---- Nothing torn without a record ----

  ghost predicate QuietAgrees(w: World) {
    w.pending == None ==> Agree(w.files, w.db)
  }

  lemma StepKeepsQuiet(w: World, e: Event)
    requires Inv(w) && CanHappen(e) && QuietAgrees(w)
    ensures QuietAgrees(Step(w, e))
  {
    if w.pending.Some? && Step(w, e).pending == None {
      UnlinkAgrees(w, e);
    } else if w.pending == None && Step(w, e).pending == None {
      assert Step(w, e).files == w.files && Step(w, e).db == w.db;
    }
  }

  lemma UnlinkAgrees(w: World, e: Event)
    requires Inv(w) && w.pending.Some? && Step(w, e).pending != w.pending
    ensures Step(w, e).pending == None && Step(w, e).files == w.files && Step(w, e).db == w.db
    ensures w.db == w.pending.value && Agree(w.files, w.db)
  {
    assert e == Advance && w.job.Some? && w.job.value.pc == Unlink;
    assert w.files == w.job.value.plan;
  }

  lemma {:induction false} RunKeepsQuiet(w: World, events: seq<Event>)
    requires Inv(w) && AllCanHappen(events) && QuietAgrees(w)
    ensures QuietAgrees(Run(w, events))
    decreases |events|
  {
    if events != [] {
      assert CanHappen(events[0]);
      StepKeepsInv(w, events[0]);
      StepKeepsQuiet(w, events[0]);
      RunKeepsQuiet(Step(w, events[0]), events[1..]);
    }
  }

  /** If everything agreed at first, it agrees whenever no rotation is pending. */
  lemma QuietMeansAgreement(w: World, events: seq<Event>)
    requires IsInitial(w) && Agree(w.files, w.db) && AllCanHappen(events)
    ensures Run(w, events).pending == None ==> Agree(Run(w, events).files, Run(w, events).db)
  {
    RunKeepsQuiet(w, events);
  }

  // ---- The program ----

  /** The files and the database, as `rotateRuntimeRolePasswords` changes them when nobody kills it. */
  class Workspace {
    var files: Inventories
    var pending: Option<Passwords>
    var db: Passwords

    constructor (files: Inventories, pending: Option<Passwords>, db: Passwords)
      ensures this.files == files && this.pending == pending && this.db == db
    {
      this.files, this.pending, this.db := files, pending, db;
    }

    ghost function Abstract(): World
      reads this
    {
      World(files, pending, db, None)
    }

    /** `applied` and `reported` are what the database does and says. */
    method Rotate(resume: bool, generated: Passwords, applied: bool, reported: bool) returns (done: bool)
      requires AreGenerated(generated)
      modifies this
      ensures Abstract() == Run(old(Abstract()), WholeRun(resume, generated, applied, reported))
      ensures done <==> old(Start(Abstract(), resume, generated).job.Some?) && reported
      ensures DifferInPasswords(old(files), files)
    {
      hide DifferInPasswords, Run, Planned, IsRecord;
      ghost var before := Abstract();
      RotationsChangeOnlyPasswords(before, WholeRun(resume, generated, applied, reported));
      RunToDatabase(before, resume, generated, applied, reported);
      NothingHappens(before, WRITES);
      var planned, passwords := Prepare(resume, generated);
      if planned == None {
        return false;
      }
      var plan := planned.value;
      if !resume {
        pending := Some(passwords);
      }
      if applied {
        db := passwords;
      }
      NothingHappens(Abstract(), WRITES);
      if !reported {
        return false;
      }
      FinishWrites(Abstract().(job := Some(Job(WriteSecrets, plan, passwords))), Job(WriteSecrets, plan, passwords));
      files := files.(secrets := plan.secrets);
      files := files.(urls := plan.urls);
      files := files.(migrator := plan.migrator);
      files := files.(production := plan.production);
      pending := None;
      return true;
    }

    /** Everything before the first write. */
    method Prepare(resume: bool, generated: Passwords) returns (plan: Option<Inventories>, passwords: Passwords)
      requires AreGenerated(generated)
      ensures var begun := Start(Abstract(), resume, generated);
        if plan == None then begun == Abstract()
        else begun == Abstract().(job := Some(Job(if resume then RunSql else WritePending, plan.value, passwords)))
    {
      passwords := generated;
      if pending.Some? {
        if !resume {
          return None, passwords;
        }
        passwords := pending.value;
        var wellFormed := ParsePending(passwords);
        if !wellFormed {
          return None, passwords;
        }
      } else if resume {
        return None, passwords;
      }
      plan := MaterializePlannedInventories(files, passwords);
    }
  }

  /** The checks of `parsePending` on the passwords of a record. */
  method ParsePending(p: Passwords) returns (wellFormed: bool)
    ensures wellFormed <==> IsRecord(p)
    ensures wellFormed <==>
      && (forall k: Kind :: k in p && |p[k]| == 64 && forall c <- p[k] ::
        'A' <= c <= 'Z' || 'a' <= c <= 'z' || '0' <= c <= '9' || c == '_' || c == '-')
      && (forall j: Kind, k: Kind | j != k :: p[j] != p[k])
  {
    for n := 0 to |ROLES|
      invariant forall m :: 0 <= m < n ==> ROLES[m] in p && IsPassword(p[ROLES[m]])
    {
      if ROLES[n] !in p || !IsPassword(p[ROLES[n]]) {
        return false;
      }
    }
    forall k: Kind
      ensures k in p && IsPassword(p[k])
    {
      AllKinds(k);
    }
    CountKinds(p);
    ValuesCountKeys(p);
    return |p.Values| == |ROLES|;
  }
}
