/** The owner stamp on content rows: which claim of which operation moved the row to its status. */
module ContentOwnership {
  import opened SqlLogic

  datatype Content = Content(
    status: string,                      // NOT NULL
    operationId: Option<int>,
    claimGeneration: Option<int>,
    phase: Option<string>,
    ownerVersion: Option<int>)

  /** The SET list of an UPDATE; None is a column the statement does not assign. */
  datatype ContentSet = ContentSet(
    status: Option<string>,
    operationId: Option<Option<int>>,
    claimGeneration: Option<Option<int>>,
    phase: Option<Option<string>>,
    ownerVersion: Option<Option<int>>)

  predicate Unowned(c: Content) {
    c.operationId.None? && c.claimGeneration.None? && c.phase.None? && c.ownerVersion.None?
  }

  /** ck_contents_status_owner_complete, as SQL evaluates it. */
  function OwnerCheck(c: Content): (r: Sql) {
    Or(And(And(IsNull(c.operationId), IsNull(c.claimGeneration)),
           And(IsNull(c.phase), IsNull(c.ownerVersion))),
       And(And(And(IsNotNull(c.operationId), GreaterThan(c.operationId, 0)),
               And(IsNotNull(c.claimGeneration), GreaterThan(c.claimGeneration, 0))),
           And(And(IsNotNull(c.phase), And(IsNotNull(c.ownerVersion), GreaterThan(c.ownerVersion, 0))),
               Or(And(Equals(c.phase, Some("parsing")), In(Some(c.status), {"parsing", "failed"})),
                  And(Equals(c.phase, Some("processing")), In(Some(c.status), {"processing", "failed"}))))))
  }

  /** A stamp is complete, and its row is in the phase the stamp names or has failed in it. */
  predicate Stamped(c: Content) {
    && c.operationId.Some? && c.operationId.value > 0
    && c.claimGeneration.Some? && c.claimGeneration.value > 0
    && c.phase.Some? && c.phase.value in {"parsing", "processing"}
    && c.ownerVersion.Some? && c.ownerVersion.value > 0
    && c.status in {c.phase.value, "failed"}
  }

  /** The constraint never evaluates to unknown in a way that lets a partial stamp through. */
  lemma OwnerCheckExact(c: Content)
    ensures CheckPasses(OwnerCheck(c)) <==> Unowned(c) || Stamped(c)
  {
  }

  function Assigned(c: Content, a: ContentSet): (r: Content) {
    Content(if a.status.Some? then a.status.value else c.status,
            if a.operationId.Some? then a.operationId.value else c.operationId,
            if a.claimGeneration.Some? then a.claimGeneration.value else c.claimGeneration,
            if a.phase.Some? then a.phase.value else c.phase,
            if a.ownerVersion.Some? then a.ownerVersion.value else c.ownerVersion)
  }

  /** contents_clear_unchanged_status_owner, BEFORE UPDATE OF status. */
  function BeforeUpdate(c: Content, a: ContentSet): (r: Content) {
    var row := Assigned(c, a);
    if a.status.Some? && row.status != c.status && row.ownerVersion == c.ownerVersion then
      Content(row.status, None, None, None, None)
    else row
  }

  /** None is a refused statement. */
  function Updated(c: Content, a: ContentSet): (r: Option<Content>) {
    var row := BeforeUpdate(c, a);
    if CheckPasses(OwnerCheck(row)) then Some(row) else None
  }

  function StatusOnly(status: string): (a: ContentSet) {
    ContentSet(Some(status), None, None, None, None)
  }

  /** A writer that knows nothing of ownership is always admitted: its status lands, and the stamp
      disappears exactly when the status really changed. */
  lemma StatusOnlyWriterAdmitted(c: Content, status: string)
    requires CheckPasses(OwnerCheck(c))
    ensures Updated(c, StatusOnly(status)).Some?
    ensures var r := Updated(c, StatusOnly(status)).value;
            r.status == status && (if status == c.status then r == c else Unowned(r))
  {
  }

  /** The columns an admitted update leaves: those it assigns, and no stamp at all when it changes the
      status and leaves the owner version as it was. */
  lemma UpdatedColumns(c: Content, a: ContentSet)
    requires Updated(c, a).Some?
    ensures var r := Updated(c, a).value;
            var version := if a.ownerVersion.Some? then a.ownerVersion.value else c.ownerVersion;
            && r.status == (if a.status.Some? then a.status.value else c.status)
            && if r.status != c.status && version == c.ownerVersion
               then r.operationId == None && r.claimGeneration == None && r.phase == None && r.ownerVersion == None
               else && r.ownerVersion == version
                    && r.operationId == (if a.operationId.Some? then a.operationId.value else c.operationId)
                    && r.claimGeneration == (if a.claimGeneration.Some? then a.claimGeneration.value else c.claimGeneration)
                    && r.phase == (if a.phase.Some? then a.phase.value else c.phase)
  {
    hide OwnerCheck;
  }

  /** An update of any columns is admitted exactly when the row it leaves is unowned, or carries a whole
      stamp of positive numbers whose phase is the row's status or has failed. */
  lemma {:induction false} UpdateAdmittedExactly(c: Content, a: ContentSet)
    ensures Updated(c, a).Some? <==>
              var r := BeforeUpdate(c, a);
              || (r.operationId == None && r.claimGeneration == None && r.phase == None && r.ownerVersion == None)
              || (&& r.operationId.Some? && r.operationId.value > 0 && r.claimGeneration.Some? && r.claimGeneration.value > 0
                  && r.ownerVersion.Some? && r.ownerVersion.value > 0
                  && ((r.phase == Some("parsing") && (r.status == "parsing" || r.status == "failed"))
                      || (r.phase == Some("processing") && (r.status == "processing" || r.status == "failed"))))
  {
    OwnerCheckExact(BeforeUpdate(c, a));
    hide OwnerCheck;
  }

  /** Which status updates are admitted at all: every one that leaves the owner version alone while
      changing the status, and otherwise those that assign a whole stamp fitting the new status. */
  lemma StatusUpdateAdmittedExactly(c: Content, a: ContentSet)
    requires a.status.Some?
    ensures Updated(c, a).Some?
       <==> || (Assigned(c, a).status != c.status && Assigned(c, a).ownerVersion == c.ownerVersion)
            || Unowned(Assigned(c, a)) || Stamped(Assigned(c, a))
  {
  }

  /** A row that changed status and is still owned was stamped by that very statement. */
  lemma StampsAreFresh(c: Content, a: ContentSet)
    requires Updated(c, a).Some? && Updated(c, a).value.status != c.status
    requires !Unowned(Updated(c, a).value)
    ensures Updated(c, a).value.ownerVersion != c.ownerVersion && Stamped(Updated(c, a).value)
  {
    OwnerCheckExact(Updated(c, a).value);
  }

  // -----------------------------------------------------------------------------------------
  // Runs over the table

  ghost predicate TableOk(rows: map<int, Content>) {
    forall id :: id in rows ==> CheckPasses(OwnerCheck(rows[id]))
  }

  function Apply(rows: map<int, Content>, id: int, a: ContentSet): (r: map<int, Content>) {
    if id in rows && Updated(rows[id], a).Some? then rows[id := Updated(rows[id], a).value] else rows
  }

  function RunUpdates(rows: map<int, Content>, updates: seq<(int, ContentSet)>): (r: map<int, Content>)
    decreases |updates|
  {
    if updates == [] then rows
    else RunUpdates(Apply(rows, updates[0].0, updates[0].1), updates[1..])
  }

  /** Whatever is attempted, every owned row ever stored is in its owner's phase or failed. */
  lemma {:induction false} OwnedRowsStayInPhase(rows: map<int, Content>, updates: seq<(int, ContentSet)>)
    requires TableOk(rows)
    ensures TableOk(RunUpdates(rows, updates))
    ensures forall id :: id in RunUpdates(rows, updates) ==>
              Unowned(RunUpdates(rows, updates)[id]) || Stamped(RunUpdates(rows, updates)[id])
    decreases |updates|
  {
    if updates == [] {
      forall id | id in rows ensures Unowned(rows[id]) || Stamped(rows[id]) {
        OwnerCheckExact(rows[id]);
      }
    } else {
      OwnedRowsStayInPhase(Apply(rows, updates[0].0, updates[0].1), updates[1..]);
    }
  }

  lemma StampAfterOne(rows: map<int, Content>, target: int, a: ContentSet, id: int)
    requires TableOk(rows) && id in rows && (target == id ==> a.ownerVersion.None?)
    ensures var next := Apply(rows, target, a);
            && TableOk(next) && id in next
            && (Unowned(rows[id]) ==> Unowned(next[id]))
            && (Unowned(next[id]) || (next[id].status == rows[id].status && next[id].ownerVersion == rows[id].ownerVersion))
  {
    if target == id { StampOfOne(rows[id], a); }
    hide OwnerCheck, BeforeUpdate, Stamped;
  }

  lemma StampOfOne(c: Content, a: ContentSet)
    requires CheckPasses(OwnerCheck(c)) && a.ownerVersion.None?
    ensures Updated(c, a).Some? ==>
              var r := Updated(c, a).value;
              && (Unowned(c) ==> Unowned(r))
              && (Unowned(r) || (r.status == c.status && r.ownerVersion == c.ownerVersion))
  {
    OwnerCheckExact(c);
    OwnerCheckExact(BeforeUpdate(c, a));
    hide OwnerCheck;
  }

  /** While no statement assigns the owner version, a stamp never outlives the status it was
      written with. */
  lemma {:induction false} StampSurvivesOnlyItsStatus(rows: map<int, Content>, updates: seq<(int, ContentSet)>, id: int)
    requires TableOk(rows) && id in rows && !Unowned(rows[id])
    requires forall i :: 0 <= i < |updates| && updates[i].0 == id ==> updates[i].1.ownerVersion.None?
    ensures id in RunUpdates(rows, updates)
    ensures var r := RunUpdates(rows, updates)[id];
            Unowned(r) || (r.status == rows[id].status && r.ownerVersion == rows[id].ownerVersion)
    decreases |updates|
  {
    if updates != [] {
      var next := Apply(rows, updates[0].0, updates[0].1);
      StampAfterOne(rows, updates[0].0, updates[0].1, id);
      hide OwnerCheck, Updated, Apply, TableOk;
      if Unowned(next[id]) {
        UnownedStaysUnowned(next, updates[1..], id);
      } else {
        StampSurvivesOnlyItsStatus(next, updates[1..], id);
      }
    }
  }

  lemma {:induction false} UnownedStaysUnowned(rows: map<int, Content>, updates: seq<(int, ContentSet)>, id: int)
    requires TableOk(rows) && id in rows && Unowned(rows[id])
    requires forall i :: 0 <= i < |updates| && updates[i].0 == id ==> updates[i].1.ownerVersion.None?
    ensures id in RunUpdates(rows, updates) && Unowned(RunUpdates(rows, updates)[id])
    decreases |updates|
  {
    if updates != [] {
      var next := Apply(rows, updates[0].0, updates[0].1);
      StampAfterOne(rows, updates[0].0, updates[0].1, id);
      hide OwnerCheck, Updated, Apply, TableOk;
      UnownedStaysUnowned(next, updates[1..], id);
    }
  }

  /** The table itself. */
  class Contents {
    var rows: map<int, Content>

    method Update(id: int, a: ContentSet) returns (accepted: bool)
      requires TableOk(rows)
      modifies this
      ensures rows == Apply(old(rows), id, a) && TableOk(rows)
      ensures accepted <==> id in old(rows) && Updated(old(rows)[id], a).Some?
    {
      hide OwnerCheck;
      if id !in rows {
        return false;
      }
      var before := rows[id];
      var row := Assigned(before, a);
      if a.status.Some? && row.status != before.status && row.ownerVersion == before.ownerVersion {
        row := row.(operationId := None, claimGeneration := None, phase := None, ownerVersion := None);
      }
      accepted := CheckPasses(OwnerCheck(row));
      if accepted {
        rows := rows[id := row];
      }
    }
  }
}
