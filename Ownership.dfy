/**
 * The importer and the web application write `dbo.LoadTracker` side by
 * side: the importer only the feed's columns, the edit only EXCEPTION,
 * USR_SF_SHORT_DESC and COMMENTS. Neither clobbers the other's work.
 */
module Ownership {
  import opened Wrappers
  import opened Text
  import opened Schema
  import opened Reconciliation
  import opened Repository

  /** An edit changes nothing the importer compares, so the next import updates and inserts the same rows. */
  lemma EditLeavesImportWorkAlone(rows: map<int, Row>, staged: map<int, SyncCols>, e: Edit)
    ensures UpdatedIds(ApplyEdit(rows, e), staged) == UpdatedIds(rows, staged)
    ensures NewIds(ApplyEdit(rows, e), staged) == NewIds(rows, staged)
  {
    EditWritesThreeColumns(rows, e);
  }

  /** What a user saved is still there after any later import. */
  lemma EditSurvivesImport(rows: map<int, Row>, staged: map<int, SyncCols>, defaults: EditCols, e: Edit)
    requires e.detailLineId in EditTargets(rows, e)
    ensures var after := Reconcile(ApplyEdit(rows, e), staged, defaults);
      && e.detailLineId in after
      && after[e.detailLineId].edit.exception == e.exception
      && after[e.detailLineId].edit.usrSfShortDesc == NullIfBlank(e.userDelay)
      && after[e.detailLineId].edit.comments == NullIfBlank(e.comments)
  {
    EditWritesThreeColumns(rows, e);
    ReconcileKeepsEdits(ApplyEdit(rows, e), staged, defaults, e.detailLineId);
  }

  /** What the feed delivered is still there after any later edit. */
  lemma ImportSurvivesEdit(rows: map<int, Row>, staged: map<int, SyncCols>, defaults: EditCols, e: Edit, id: int)
    requires id in staged
    ensures var after := ApplyEdit(Reconcile(rows, staged, defaults), e);
      id in after && !Changed(after[id].sync, staged[id])
  {
    ReconcileReflectsStaging(rows, staged, defaults, id);
    EditWritesThreeColumns(Reconcile(rows, staged, defaults), e);
  }

  /**
   * When the import does not change which row the edit matches, running
   * the two in either order leaves the same table.
   */
  lemma ImportAndEditCommute(rows: map<int, Row>, staged: map<int, SyncCols>, defaults: EditCols, e: Edit)
    requires EditTargets(Reconcile(rows, staged, defaults), e) == EditTargets(rows, e)
    ensures ApplyEdit(Reconcile(rows, staged, defaults), e) == Reconcile(ApplyEdit(rows, e), staged, defaults)
  {
    var edited := ApplyEdit(rows, e);
    EditLeavesImportWorkAlone(rows, staged, e);
    EditWritesThreeColumns(rows, e);
    ReconcileIds(rows, staged, defaults);
    ReconcileIds(edited, staged, defaults);
    var left := ApplyEdit(Reconcile(rows, staged, defaults), e);
    var right := Reconcile(edited, staged, defaults);
    forall id | id in left
      ensures id in right && left[id] == right[id]
    {
      if id in rows {
        ReconcileKeepsEdits(rows, staged, defaults, id);
        ReconcileKeepsEdits(edited, staged, defaults, id);
        ReconcileRewritesChanged(rows, staged, defaults, id);
        ReconcileRewritesChanged(edited, staged, defaults, id);
      } else {
        ReconcileInsertsNew(rows, staged, defaults, id);
        ReconcileInsertsNew(edited, staged, defaults, id);
      }
    }
    assert left.Keys == right.Keys;
  }

  /** An import that leaves the edited row's customer alone, and does not insert that id, commutes with the edit. */
  lemma CommuteWhenCustomerKept(rows: map<int, Row>, staged: map<int, SyncCols>, defaults: EditCols, e: Edit)
    requires e.detailLineId in rows
    requires e.detailLineId in staged ==> staged[e.detailLineId].customer == rows[e.detailLineId].sync.customer
    ensures ApplyEdit(Reconcile(rows, staged, defaults), e) == Reconcile(ApplyEdit(rows, e), staged, defaults)
  {
    var id := e.detailLineId;
    var after := Reconcile(rows, staged, defaults);
    ReconcileRewritesChanged(rows, staged, defaults, id);
    assert after[id].sync.customer == rows[id].sync.customer;
    EditTargetsOne(rows, e);
    EditTargetsOne(after, e);
    ImportAndEditCommute(rows, staged, defaults, e);
  }
}
