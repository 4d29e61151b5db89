/**
 * `ImportOnceAsync`: one import run. A process-wide single-slot guard
 * keeps runs from overlapping, an unchanged file can be skipped by its
 * last write time, and the reconciliation is retried only when SQL Server
 * picks it as a deadlock victim.
 */
module ImportRun {
  import opened Wrappers
  import opened Text
  import opened Schema
  import opened Coercion
  import opened Snapshot
  import opened Reconciliation

  /** The configuration keys a run reads. */
  datatype Config = Config(
    csvPath: Option<string>,              // Importer:CsvPath
    skipIfFileUnchanged: Option<string>,  // Importer:SkipIfFileUnchanged
    maxRetries: Option<string>,           // Importer:MaxRetries
    connectionString: Option<string>      // ConnectionStrings:LoadTracker
  )

  /**
   * What the file system shows of the CSV: whether it exists, its last
   * write time, whether copying it to the temporary file fails, and the
   * records CsvHelper reads from the copy.
   */
  datatype SourceFile = SourceFile(present: bool, writeUtc: DateTime, copyFails: bool, records: seq<CsvRecord>)

  /** How one call of `UpsertAsync` ends: it returns, or it throws. */
  datatype AttemptOutcome =
    | Committed(lockCode: Option<int>)  // returned; `sp_getapplock` gave this code
    | SqlError(number: int)             // threw a SqlException with this number
    | OtherError                        // threw anything else

  /** How a run ends. */
  datatype RunOutcome =
    | SkippedBusy                        // `_runLock` was taken
    | CsvPathMissing
    | CsvNotFound
    | SkippedUnchanged
    | CopyFailed                         // the copy threw; caught by the outer handler
    | NoRows
    | ConnectionMissing
    | Done(updated: nat, inserted: nat, attempts: nat)
    | Failed(attempts: nat)              // an attempt threw and was not retried

  /** The SQL Server error number of a deadlock victim. */
  const DeadlockError: int := 1205

  /** `bool.TryParse(setting, out b) && b`. */
  predicate SkipIfUnchanged(setting: Option<string>) {
    ParseBool(setting) == Some(true)
  }

  /** The short-circuit: enabled, and the write time is the one last imported. */
  predicate ShortCircuits(setting: Option<string>, last: Option<DateTime>, writeUtc: DateTime) {
    SkipIfUnchanged(setting) && last.Some? && last.value == writeUtc
  }

  /** `int.TryParse(setting, out r) ? Math.Max(1, r) : 3`. */
  function RetryBudget(setting: Option<string>): (n: nat)
    ensures n >= 1
  {
    match setting
    case None => 3
    case Some(t) =>
      match ParseInteger(t)
      case None => 3
      case Some(r) => if r < 1 then 1 else r
  }

  /** A missing or unreadable setting allows three attempts; a number allows at least one. */
  lemma RetryBudgetOfSetting(r: int)
    requires InInt32(r)
    ensures RetryBudget(None) == 3 && RetryBudget(Some("")) == 3
    ensures forall t :: ParseInteger(t).None? ==> RetryBudget(Some(t)) == 3
    ensures RetryBudget(Some(IntToDecimal(r))) == if r < 1 then 1 else r
  {
    ParseIntegerRoundTrip(r);
  }

  /** The exception filter: only a deadlock on an attempt before the last is retried. */
  predicate IsRetried(o: AttemptOutcome, attempt: nat, retries: nat) {
    o.SqlError? && o.number == DeadlockError && attempt < retries
  }

  /**
   * The attempt that ends the retry loop when it is entered at `attempt`:
   * every attempt before it was a retried deadlock, and it is not.
   */
  function FinalAttempt(outcomes: nat -> AttemptOutcome, retries: nat, attempt: nat): (k: nat)
    requires 1 <= attempt <= retries
    ensures attempt <= k <= retries
    ensures !IsRetried(outcomes(k), k, retries)
    ensures forall j :: attempt <= j < k ==> IsRetried(outcomes(j), j, retries)
    decreases retries - attempt
  {
    if IsRetried(outcomes(attempt), attempt, retries) then FinalAttempt(outcomes, retries, attempt + 1)
    else attempt
  }

  /** The delays slept before attempts 2 .. k: `2 * attempt` seconds after each failed attempt. */
  function Backoff(k: nat): (delays: seq<nat>)
    requires k >= 1
    ensures |delays| == k - 1
    ensures forall i :: 0 <= i < |delays| ==> delays[i] == 2 * (i + 1)
  {
    seq(k - 1, i => 2 * (i + 1))
  }

  /**
   * What a run started in state (`lockFree`, `last`) does, step by step as
   * `ImportOnceAsync` checks things; `rows` and `defaults` are the table it
   * would reconcile.
   */
  function RunSpec(lockFree: bool, last: Option<DateTime>, cfg: Config, file: SourceFile, p: Parsers,
                   rows: map<int, Row>, defaults: EditCols, outcomes: nat -> AttemptOutcome): RunOutcome
  {
    if !lockFree then SkippedBusy
    else if IsNullOrWhiteSpace(cfg.csvPath) then CsvPathMissing
    else if !file.present then CsvNotFound
    else if ShortCircuits(cfg.skipIfFileUnchanged, last, file.writeUtc) then SkippedUnchanged
    else ImportSpec(cfg, file, p, rows, outcomes)
  }

  /** The part of a run after the checks on the file: copy, parse, connect, reconcile. */
  function ImportSpec(cfg: Config, file: SourceFile, p: Parsers, rows: map<int, Row>,
                      outcomes: nat -> AttemptOutcome): RunOutcome
  {
    if file.copyFails then CopyFailed
    else if |LastById(file.records)| == 0 then NoRows
    else if IsNullOrWhiteSpace(cfg.connectionString) then ConnectionMissing
    else AttemptsSpec(outcomes, RetryBudget(cfg.maxRetries), rows, SnapshotOf(file.records, p))
  }

  /**
   * How the retry loop ends: the final attempt either returned, with the
   * counts `UpsertAsync` reports, or threw.
   */
  function AttemptsSpec(outcomes: nat -> AttemptOutcome, retries: nat, rows: map<int, Row>,
                        staged: map<int, SyncCols>): RunOutcome
    requires retries >= 1
  {
    var k := FinalAttempt(outcomes, retries, 1);
    match outcomes(k)
    case Committed(code) =>
      if AppLockGranted(code) then Done(|UpdatedIds(rows, staged)|, |NewIds(rows, staged)|, k)
      else Done(0, 0, k)
    case _ => Failed(k)
  }

  /** The delays a run sleeps: one per retried attempt. */
  function DelaysOf(outcome: RunOutcome): seq<nat> {
    match outcome
    case Done(_, _, k) => if k >= 1 then Backoff(k) else []
    case Failed(k) => if k >= 1 then Backoff(k) else []
    case _ => []
  }

  /** The table after a run: reconciled only when an attempt committed holding the application lock. */
  function RowsAfter(outcome: RunOutcome, outcomes: nat -> AttemptOutcome, staged: map<int, SyncCols>,
                     rows: map<int, Row>, defaults: EditCols): map<int, Row>
  {
    if outcome.Done? && outcomes(outcome.attempts).Committed? && AppLockGranted(outcomes(outcome.attempts).lockCode)
    then Reconcile(rows, staged, defaults)
    else rows
  }

  /** A run that finds the guard taken does nothing at all. */
  lemma BusyRunSkips(last: Option<DateTime>, cfg: Config, file: SourceFile, p: Parsers,
                     rows: map<int, Row>, defaults: EditCols, outcomes: nat -> AttemptOutcome)
    ensures var o := RunSpec(false, last, cfg, file, p, rows, defaults, outcomes);
      o == SkippedBusy && DelaysOf(o) == [] && RowsAfter(o, outcomes, SnapshotOf(file.records, p), rows, defaults) == rows
  {
  }

  /**
   * The short-circuit fires exactly when the guard is free, the path is
   * set, the file exists, the setting parses as true and the recorded write
   * time equals the file's.
   */
  lemma ShortCircuitExactly(lockFree: bool, last: Option<DateTime>, cfg: Config, file: SourceFile, p: Parsers,
                            rows: map<int, Row>, defaults: EditCols, outcomes: nat -> AttemptOutcome)
    ensures RunSpec(lockFree, last, cfg, file, p, rows, defaults, outcomes) == SkippedUnchanged
        <==> && lockFree && !IsNullOrWhiteSpace(cfg.csvPath) && file.present
             && ParseBool(cfg.skipIfFileUnchanged) == Some(true) && last == Some(file.writeUtc)
  {
  }

  /**
   * The retry loop: a run that reaches `UpsertAsync` calls it between one
   * and `RetryBudget` times; every call but the last was a deadlock on a
   * non-final attempt; the run is done exactly when the last call returned.
   */
  lemma AttemptsAreBounded(lockFree: bool, last: Option<DateTime>, cfg: Config, file: SourceFile, p: Parsers,
                           rows: map<int, Row>, defaults: EditCols, outcomes: nat -> AttemptOutcome)
    ensures var o := RunSpec(lockFree, last, cfg, file, p, rows, defaults, outcomes);
      (o.Done? || o.Failed?) ==>
        var retries := RetryBudget(cfg.maxRetries);
        && 1 <= o.attempts <= retries
        && (forall j :: 1 <= j < o.attempts ==> outcomes(j) == SqlError(DeadlockError))
        && (o.Done? <==> outcomes(o.attempts).Committed?)
        && (o.Failed? ==> outcomes(o.attempts) != SqlError(DeadlockError) || o.attempts == retries)
        && DelaysOf(o) == Backoff(o.attempts)
  {
    var o := RunSpec(lockFree, last, cfg, file, p, rows, defaults, outcomes);
    if o.Done? || o.Failed? {
      var retries := RetryBudget(cfg.maxRetries);
      RunEndsInAttempts(lockFree, last, cfg, file, p, rows, defaults, outcomes);
      AttemptsSpecBounded(outcomes, retries, rows, SnapshotOf(file.records, p));
    }
  }

  /** A run that reaches the database ends as its retry loop does. */
  lemma RunEndsInAttempts(lockFree: bool, last: Option<DateTime>, cfg: Config, file: SourceFile, p: Parsers,
                          rows: map<int, Row>, defaults: EditCols, outcomes: nat -> AttemptOutcome)
    ensures var o := RunSpec(lockFree, last, cfg, file, p, rows, defaults, outcomes);
      (o.Done? || o.Failed?) ==>
        o == AttemptsSpec(outcomes, RetryBudget(cfg.maxRetries), rows, SnapshotOf(file.records, p))
  {
  }

  /** How the retry loop ends, for any budget. */
  lemma AttemptsSpecBounded(outcomes: nat -> AttemptOutcome, retries: nat, rows: map<int, Row>,
                            staged: map<int, SyncCols>)
    requires retries >= 1
    ensures var o := AttemptsSpec(outcomes, retries, rows, staged);
      && (o.Done? || o.Failed?)
      && 1 <= o.attempts <= retries
      && (forall j :: 1 <= j < o.attempts ==> outcomes(j) == SqlError(DeadlockError))
      && (o.Done? <==> outcomes(o.attempts).Committed?)
      && (o.Failed? ==> outcomes(o.attempts) != SqlError(DeadlockError) || o.attempts == retries)
      && DelaysOf(o) == Backoff(o.attempts)
  {
    var k := FinalAttempt(outcomes, retries, 1);
    forall j | 1 <= j < k
      ensures outcomes(j) == SqlError(DeadlockError)
    {
      assert IsRetried(outcomes(j), j, retries);
    }
  }

  /** A commit without the application lock still counts as done, with nothing changed. */
  lemma LockRefusedIsDoneWithNoChange(lockFree: bool, last: Option<DateTime>, cfg: Config, file: SourceFile,
                                       p: Parsers, rows: map<int, Row>, defaults: EditCols,
                                       outcomes: nat -> AttemptOutcome)
    ensures var o := RunSpec(lockFree, last, cfg, file, p, rows, defaults, outcomes);
      o.Done? && !AppLockGranted(outcomes(o.attempts).lockCode) ==>
        o.updated == 0 && o.inserted == 0 && RowsAfter(o, outcomes, SnapshotOf(file.records, p), rows, defaults) == rows
  {
    RunEndsInAttempts(lockFree, last, cfg, file, p, rows, defaults, outcomes);
  }

  /**
   * A second pass of the retry loop over a table the first pass left:
   * nothing is counted and the table stays as it is.
   */
  lemma AttemptsAfterDoneChangeNothing(outcomes: nat -> AttemptOutcome, again: nat -> AttemptOutcome,
                                       retries: nat, rows: map<int, Row>, staged: map<int, SyncCols>,
                                       defaults: EditCols, later: nat)
    requires retries >= 1 && later >= 1
    requires AttemptsSpec(outcomes, retries, rows, staged).Done?
    requires AppLockGranted(outcomes(AttemptsSpec(outcomes, retries, rows, staged).attempts).lockCode)
    ensures var after := RowsAfter(AttemptsSpec(outcomes, retries, rows, staged), outcomes, staged, rows, defaults);
      var second := AttemptsSpec(again, later, after, staged);
      && (second.Done? ==> second.updated == 0 && second.inserted == 0)
      && RowsAfter(second, again, staged, after, defaults) == after
  {
    ReconcileIdempotent(rows, staged, defaults);
  }

  /**
   * Back-to-back runs on the same file: after a run that is done holding
   * the application lock, a second
   * run with the short-circuit enabled skips; without it, a second run
   * updates and inserts nothing and leaves the table as it is.
   */
  lemma RerunChangesNothing(last: Option<DateTime>, cfg: Config, file: SourceFile, p: Parsers, rows: map<int, Row>,
                            defaults: EditCols, outcomes: nat -> AttemptOutcome, again: nat -> AttemptOutcome)
    requires RunSpec(true, last, cfg, file, p, rows, defaults, outcomes).Done?
    requires AppLockGranted(outcomes(RunSpec(true, last, cfg, file, p, rows, defaults, outcomes).attempts).lockCode)
    ensures var staged := SnapshotOf(file.records, p);
      var after := RowsAfter(RunSpec(true, last, cfg, file, p, rows, defaults, outcomes), outcomes, staged, rows, defaults);
      var second := RunSpec(true, Some(file.writeUtc), cfg, file, p, after, defaults, again);
      && (SkipIfUnchanged(cfg.skipIfFileUnchanged) ==> second == SkippedUnchanged)
      && (second.Done? ==> second.updated == 0 && second.inserted == 0)
      && RowsAfter(second, again, staged, after, defaults) == after
  {
    var retries := RetryBudget(cfg.maxRetries);
    AttemptsAfterDoneChangeNothing(outcomes, again, retries, rows, SnapshotOf(file.records, p), defaults, retries);
  }

  /**
   * The process-wide state of `LoadTrackerImporter`: the `_runLock`
   * semaphore (free or taken) and `_lastImportedWriteUtc`.
   */
  class ImportCoordinator {
    var runLockFree: bool
    var lastImportedWriteUtc: Option<DateTime>

    constructor ()
      ensures runLockFree && lastImportedWriteUtc == None
    {
      runLockFree := true;
      lastImportedWriteUtc := None;
    }

    /**
     * `ImportOnceAsync`. The guard is taken without waiting and released
     * on every path; the write time is recorded only when an attempt
     * returned; the table changes only through a committed attempt.
     */
    method ImportOnce(cfg: Config, file: SourceFile, p: Parsers, db: LoadTable, outcomes: nat -> AttemptOutcome)
      returns (outcome: RunOutcome, delays: seq<nat>)
      modifies this, db
      ensures outcome == RunSpec(old(runLockFree), old(lastImportedWriteUtc), cfg, file, p,
                                 old(db.rows), db.insertDefaults, outcomes)
      ensures delays == DelaysOf(outcome)
      ensures runLockFree == old(runLockFree)
      ensures lastImportedWriteUtc == if outcome.Done? then Some(file.writeUtc) else old(lastImportedWriteUtc)
      ensures db.rows == RowsAfter(outcome, outcomes, SnapshotOf(file.records, p), old(db.rows), db.insertDefaults)
    {
      if !runLockFree {
        return SkippedBusy, [];
      }
      runLockFree := false;
      outcome, delays := RunLocked(cfg, file, p, db, outcomes);
      runLockFree := true;
    }

    /** The body of the `try` block, run while the guard is held. */
    method RunLocked(cfg: Config, file: SourceFile, p: Parsers, db: LoadTable, outcomes: nat -> AttemptOutcome)
      returns (outcome: RunOutcome, delays: seq<nat>)
      modifies this, db
      ensures outcome == RunSpec(true, old(lastImportedWriteUtc), cfg, file, p,
                                 old(db.rows), db.insertDefaults, outcomes)
      ensures delays == DelaysOf(outcome)
      ensures runLockFree == old(runLockFree)
      ensures lastImportedWriteUtc == if outcome.Done? then Some(file.writeUtc) else old(lastImportedWriteUtc)
      ensures db.rows == RowsAfter(outcome, outcomes, SnapshotOf(file.records, p), old(db.rows), db.insertDefaults)
    {
      delays := [];
      if IsNullOrWhiteSpace(cfg.csvPath) {
        return CsvPathMissing, delays;
      }
      if !file.present {
        return CsvNotFound, delays;
      }
      var skipIfUnchanged := SkipIfUnchanged(cfg.skipIfFileUnchanged);
      if skipIfUnchanged && lastImportedWriteUtc.Some? && lastImportedWriteUtc.value == file.writeUtc {
        return SkippedUnchanged, delays;
      }
      outcome, delays := ImportFile(cfg, file, p, db, outcomes);
    }

    /** The copy, the parse and the reconciliation, once the file is to be imported. */
    method ImportFile(cfg: Config, file: SourceFile, p: Parsers, db: LoadTable, outcomes: nat -> AttemptOutcome)
      returns (outcome: RunOutcome, delays: seq<nat>)
      modifies this, db
      ensures outcome == ImportSpec(cfg, file, p, old(db.rows), outcomes)
      ensures delays == DelaysOf(outcome)
      ensures runLockFree == old(runLockFree)
      ensures lastImportedWriteUtc == if outcome.Done? then Some(file.writeUtc) else old(lastImportedWriteUtc)
      ensures db.rows == RowsAfter(outcome, outcomes, SnapshotOf(file.records, p), old(db.rows), db.insertDefaults)
    {
      if file.copyFails {
        return CopyFailed, [];
      }
      var data := ReadCsvToDataTable(file.records, p);
      outcome, delays := ImportTable(cfg, file, p, db, outcomes, data);
    }

    /** The parsed staging table reconciled with the database, unless it is empty or there is no connection string. */
    method ImportTable(cfg: Config, file: SourceFile, p: Parsers, db: LoadTable, outcomes: nat -> AttemptOutcome,
                       data: seq<StagedRow>)
      returns (outcome: RunOutcome, delays: seq<nat>)
      requires !file.copyFails && DistinctIds(data)
      requires |data| == |LastById(file.records)| && StagingOf(data) == SnapshotOf(file.records, p)
      modifies this, db
      ensures outcome == ImportSpec(cfg, file, p, old(db.rows), outcomes)
      ensures delays == DelaysOf(outcome)
      ensures runLockFree == old(runLockFree)
      ensures lastImportedWriteUtc == if outcome.Done? then Some(file.writeUtc) else old(lastImportedWriteUtc)
      ensures db.rows == RowsAfter(outcome, outcomes, SnapshotOf(file.records, p), old(db.rows), db.insertDefaults)
    {
      if |data| == 0 {
        return NoRows, [];
      }
      if IsNullOrWhiteSpace(cfg.connectionString) {
        return ConnectionMissing, [];
      }
      outcome, delays := RetryUpserts(db, data, RetryBudget(cfg.maxRetries), file.writeUtc, outcomes);
    }

    /**
     * The retry loop around `UpsertAsync`: a deadlock on an attempt before
     * the last sleeps `2 * attempt` seconds and tries again; a return ends
     * the run as done and records the write time; any other exception ends
     * it as failed.
     */
    method RetryUpserts(db: LoadTable, data: seq<StagedRow>, retries: nat, writeUtc: DateTime,
                        outcomes: nat -> AttemptOutcome)
      returns (outcome: RunOutcome, delays: seq<nat>)
      requires retries >= 1 && DistinctIds(data)
      modifies this, db
      ensures outcome == AttemptsSpec(outcomes, retries, old(db.rows), StagingOf(data))
      ensures delays == DelaysOf(outcome)
      ensures runLockFree == old(runLockFree)
      ensures lastImportedWriteUtc == if outcome.Done? then Some(writeUtc) else old(lastImportedWriteUtc)
      ensures db.rows == RowsAfter(outcome, outcomes, StagingOf(data), old(db.rows), db.insertDefaults)
    {
      delays := [];
      var attempt := 1;
      while true
        invariant 1 <= attempt <= retries
        invariant FinalAttempt(outcomes, retries, attempt) == FinalAttempt(outcomes, retries, 1)
        invariant delays == Backoff(attempt)
        invariant unchanged(this, db)
        decreases retries - attempt
      {
        match outcomes(attempt)
        case Committed(code) =>
          var updated, inserted := Upsert(db, data, code);
          lastImportedWriteUtc := Some(writeUtc);
          return Done(updated, inserted, attempt), delays;
        case SqlError(number) =>
          if number == DeadlockError && attempt < retries {
            delays := delays + [2 * attempt];
            attempt := attempt + 1;
          } else {
            return Failed(attempt), delays;
          }
        case OtherError =>
          return Failed(attempt), delays;
      }
    }
  }
}
