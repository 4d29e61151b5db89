/**
 * `UpsertAsync`: the set-based reconciliation of the staged snapshot with
 * `dbo.LoadTracker`, inside one transaction guarded by the application
 * lock `LoadTrackerCsvImport`. The UPDATE rewrites the sync-owned columns
 * of matched rows that differ under ISNULL coalescing; the INSERT adds the
 * staged ids the table lacks; nothing is deleted.
 */
module Reconciliation {
  import opened Wrappers
  import opened Schema
  import opened Snapshot

  /** The rows the UPDATE's join and WHERE clause select. */
  function UpdatedIds(rows: map<int, Row>, staged: map<int, SyncCols>): set<int> {
    set id | id in rows && id in staged && Changed(rows[id].sync, staged[id])
  }

  /** The rows the INSERT's anti-join selects. */
  function NewIds(rows: map<int, Row>, staged: map<int, SyncCols>): set<int> {
    staged.Keys - rows.Keys
  }

  /** The UPDATE: the selected rows take the staged sync-owned columns. */
  function UpdatePass(rows: map<int, Row>, staged: map<int, SyncCols>): map<int, Row> {
    map id | id in rows ::
      if id in UpdatedIds(rows, staged) then Row(staged[id], rows[id].edit) else rows[id]
  }

  /** The INSERT: each new id gets its staged columns and the schema's defaults. */
  function InsertPass(rows: map<int, Row>, staged: map<int, SyncCols>, defaults: EditCols): map<int, Row> {
    map id | id in rows.Keys + staged.Keys ::
      if id in rows then rows[id] else Row(staged[id], defaults)
  }

  /** The table after the committed transaction: the UPDATE, then the INSERT. */
  function Reconcile(rows: map<int, Row>, staged: map<int, SyncCols>, defaults: EditCols): map<int, Row> {
    InsertPass(UpdatePass(rows, staged), staged, defaults)
  }

  /** The UPDATE changes no id, so the INSERT's anti-join sees the original ids. */
  lemma UpdatePassKeepsIds(rows: map<int, Row>, staged: map<int, SyncCols>)
    ensures UpdatePass(rows, staged).Keys == rows.Keys
    ensures NewIds(UpdatePass(rows, staged), staged) == NewIds(rows, staged)
  {
  }

  /** No row is deleted: the ids afterwards are the old ids and the staged ids. */
  lemma ReconcileIds(rows: map<int, Row>, staged: map<int, SyncCols>, defaults: EditCols)
    ensures Reconcile(rows, staged, defaults).Keys == rows.Keys + staged.Keys
    ensures Reconcile(rows, staged, defaults).Keys - rows.Keys == NewIds(rows, staged)
  {
    UpdatePassKeepsIds(rows, staged);
  }

  /**
   * Column ownership: a row present before keeps every externally-owned
   * column, whatever happens to its sync-owned columns.
   */
  lemma ReconcileKeepsEdits(rows: map<int, Row>, staged: map<int, SyncCols>, defaults: EditCols, id: int)
    requires id in rows
    ensures id in Reconcile(rows, staged, defaults)
    ensures Reconcile(rows, staged, defaults)[id].edit == rows[id].edit
  {
    UpdatePassKeepsIds(rows, staged);
  }

  /** A row whose id is not staged is left exactly as it was. */
  lemma ReconcileLeavesUnstaged(rows: map<int, Row>, staged: map<int, SyncCols>, defaults: EditCols, id: int)
    requires id in rows && id !in staged
    ensures id in Reconcile(rows, staged, defaults)
    ensures Reconcile(rows, staged, defaults)[id] == rows[id]
  {
    UpdatePassKeepsIds(rows, staged);
  }

  /**
   * A persisted row is rewritten exactly when it is among `UpdatedIds`,
   * that is, when it is staged and some sync-owned column differs after
   * coalescing; a rewritten row holds the staged columns.
   */
  lemma ReconcileRewritesChanged(rows: map<int, Row>, staged: map<int, SyncCols>, defaults: EditCols, id: int)
    requires id in rows
    ensures id in Reconcile(rows, staged, defaults)
    ensures Reconcile(rows, staged, defaults)[id] != rows[id] <==> id in UpdatedIds(rows, staged)
    ensures id in UpdatedIds(rows, staged) ==> Reconcile(rows, staged, defaults)[id].sync == staged[id]
  {
    UpdatePassKeepsIds(rows, staged);
    if id in UpdatedIds(rows, staged) {
      ChangedIsADifference(rows[id].sync, staged[id]);
    }
  }

  /** A new id is inserted with its staged columns and the default externally-owned columns. */
  lemma ReconcileInsertsNew(rows: map<int, Row>, staged: map<int, SyncCols>, defaults: EditCols, id: int)
    requires id in staged && id !in rows
    ensures id in Reconcile(rows, staged, defaults)
    ensures Reconcile(rows, staged, defaults)[id] == Row(staged[id], defaults)
  {
    UpdatePassKeepsIds(rows, staged);
  }

  /** Afterwards every staged id is present and agrees with staging up to coalescing. */
  lemma ReconcileReflectsStaging(rows: map<int, Row>, staged: map<int, SyncCols>, defaults: EditCols, id: int)
    requires id in staged
    ensures id in Reconcile(rows, staged, defaults)
    ensures !Changed(Reconcile(rows, staged, defaults)[id].sync, staged[id])
  {
    UpdatePassKeepsIds(rows, staged);
  }

  /**
   * Reconciling the same staging data a second time selects nothing for
   * either statement and leaves the table as the first run left it.
   */
  lemma ReconcileIdempotent(rows: map<int, Row>, staged: map<int, SyncCols>, defaults: EditCols)
    ensures var once := Reconcile(rows, staged, defaults);
      && UpdatedIds(once, staged) == {}
      && NewIds(once, staged) == {}
      && Reconcile(once, staged, defaults) == once
  {
    var once := Reconcile(rows, staged, defaults);
    UpdatePassKeepsIds(rows, staged);
    forall id | id in staged
      ensures id in once && !Changed(once[id].sync, staged[id])
    {
      ReconcileReflectsStaging(rows, staged, defaults, id);
    }
    assert UpdatedIds(once, staged) == {};
    assert UpdatePass(once, staged) == once;
  }

  /** `TryAcquireAppLockAsync`: the lock is held when `sp_getapplock` returns a non-negative code; no code counts as -999. */
  function AppLockGranted(code: Option<int>): (granted: bool)
    ensures granted <==> code.Some? && code.value >= 0
  {
    code.GetOr(-999) >= 0
  }

  /**
   * `UpsertAsync` on a committed attempt. Without the application lock the
   * transaction is rolled back and `(0, 0)` returned; with it the table is
   * reconciled with the staged rows and the two statements' row counts
   * are returned.
   */
  method Upsert(db: LoadTable, data: seq<StagedRow>, lockCode: Option<int>) returns (updated: nat, inserted: nat)
    requires DistinctIds(data)
    modifies db
    ensures !AppLockGranted(lockCode) ==> db.rows == old(db.rows) && updated == 0 && inserted == 0
    ensures AppLockGranted(lockCode) ==>
              && db.rows == Reconcile(old(db.rows), StagingOf(data), db.insertDefaults)
              && updated == |UpdatedIds(old(db.rows), StagingOf(data))|
              && inserted == |NewIds(old(db.rows), StagingOf(data))|
  {
    if !AppLockGranted(lockCode) {
      return 0, 0;
    }
    var staged := StagingOf(data);
    updated := |UpdatedIds(db.rows, staged)|;
    var afterUpdate := UpdatePass(db.rows, staged);
    UpdatePassKeepsIds(db.rows, staged);
    inserted := |NewIds(afterUpdate, staged)|;
    db.rows := InsertPass(afterUpdate, staged, db.insertDefaults);
  }

  // ---------------------------------------------------------------------
  // A worked example: a status change on id 1 and a new id 2

  /** A row with only CURRENT_STATUS set. */
  function StatusOnly(status: string): SyncCols {
    SyncCols(None, None, None, None, None, None, None, None, None, None, None, None, None,
             None, None, None, None, Some(status), None, None, None, None, None, None, None, None, None)
  }

  /**
   * The table holds id 1 with status "PICK"; the CSV brings id 1 with
   * "DEL" and id 2 with "PICK". One row is updated, one inserted, and id
   * 1 now reads "DEL".
   */
  lemma StatusChangeExample(edit: EditCols, defaults: EditCols)
    ensures var rows := map[1 := Row(StatusOnly("PICK"), edit)];
      var staged := map[1 := StatusOnly("DEL"), 2 := StatusOnly("PICK")];
      var after := Reconcile(rows, staged, defaults);
      && UpdatedIds(rows, staged) == {1}
      && NewIds(rows, staged) == {2}
      && after == map[1 := Row(StatusOnly("DEL"), edit), 2 := Row(StatusOnly("PICK"), defaults)]
  {
    var rows := map[1 := Row(StatusOnly("PICK"), edit)];
    var staged := map[1 := StatusOnly("DEL"), 2 := StatusOnly("PICK")];
    assert IsNullStr(Some("PICK")) != IsNullStr(Some("DEL")) by {
      assert "PICK"[0] != "DEL"[0];
    }
    assert Changed(rows[1].sync, staged[1]);
    assert UpdatedIds(rows, staged) == {1};
    assert NewIds(rows, staged) == {2};
    var after := Reconcile(rows, staged, defaults);
    assert after.Keys == {1, 2};
  }
}
