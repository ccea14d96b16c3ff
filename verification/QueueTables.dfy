/** The tables as mutable state: each statement is a method that assigns the row, lets the triggers
    act on it in order, and gives everything up when one of them raises. */
module QueueTables {
  import opened Decimals
  import opened SqlLogic
  import opened TerminalEvents
  import opened QueueDatabase
  import opened QueueRuns
  import opened QueueColumns

  class Tables {
    var jobs: map<int, Job>
    var events: map<string, EventRow>
    var actions: map<int, Action>
    var nextJobId: int
    var nextActionId: int
    ghost var moved: set<int>   // the jobs whose status some UPDATE has changed

    ghost predicate Consistent()
      reads this
    {
      Valid(Contents()) && Captured(Contents(), moved)
    }

    function Contents(): (s: State)
      reads this
    {
      State(jobs, events, actions, nextJobId, nextActionId)
    }

    constructor ()
      ensures Contents() == EMPTY && moved == {} && Consistent()
    {
      jobs, events, actions, nextJobId, nextActionId, moved := map[], map[], map[], 1, 1, {};
    }

    /** pgqueuer_enqueue. */
    method Enqueue() returns (id: int, outcome: Outcome)
      requires Consistent()
      modifies this`jobs, this`nextJobId
      ensures (Contents(), outcome) == AfterEnqueue(old(Contents())) && Consistent()
      ensures outcome == Done(1) ==>
                id !in old(jobs) && id in jobs && jobs[id] == Job("queued", 0, 1, None, false)
    {
      id, outcome := InsertJob(Job("queued", 0, 1, None, false));
    }

    /** A job entered directly, in any status: no trigger looks at it. */
    method InsertJob(row: Job) returns (id: int, outcome: Outcome)
      requires Consistent()
      modifies this`jobs, this`nextJobId
      ensures (Contents(), outcome) == AfterInsert(old(Contents()), row) && Consistent()
      ensures outcome == Done(1) ==>
                && old(jobs) == jobs - {id} && id in jobs && jobs[id] == row
                && (row.status in TERMINAL ==> EventsOf(Contents(), id, row.claimGeneration, row.status) == {})
      ensures outcome != Done(1) ==> Contents() == old(Contents())
    {
      hide Storable, Valid, Captured, InColumnRange, JobChecks, OperationKey, IntText;
      ValidJobs(Contents());
      InsertPreserves(Contents(), row);
      InsertCaptures(Contents(), row, moved);
      UnmovedHasNoEvent(Contents(), moved, nextJobId, row.claimGeneration, row.status);
      id := nextJobId;
      if nextJobId > INT64_MAX || !InColumnRange(row) {
        outcome := Raised(NumericOutOfRange);
        return;
      }
      if !JobChecks(row) {
        outcome := Raised(CheckViolation);
        return;
      }
      jobs := jobs[id := row];
      nextJobId := nextJobId + 1;
      outcome := Done(1);
    }

    /** Upsert by event key, shared by the two capture functions. It succeeds exactly when the row
        is storable and its key is free or already held by the same event; a success leaves the
        event under its key, and nothing stored is ever lost, changed or joined by another row. */
    method UpsertEvent(row: EventRow) returns (error: Option<Error>)
      modifies this`events
      ensures (events, error) == Capture(old(events), row)
      ensures error.None? <==>
                Storable(row) && (row.eventKey in old(events) ==> SameIdentity(old(events)[row.eventKey], row))
      ensures error.None? ==>
                && row.eventKey in events
                && (row.sourceKind in {"operation", "reconciliation_action"} ==>
                      SameIdentity(events[row.eventKey], row))
      ensures error.Some? ==> events == old(events)
      ensures forall k :: k in old(events) ==> k in events && events[k] == old(events)[k]
      ensures forall k :: k in events && k !in old(events) ==> k == row.eventKey && events[k] == row
    {
      hide PassesColumnChecks;
      if !Storable(row) {
        error := Some(CheckViolation);
      } else if row.eventKey !in events {
        SourceChecksExact(row);
        events := events[row.eventKey := row];
        error := None;
      } else {
        var captured := SameIdentity(events[row.eventKey], row);
        error := if captured then None else Some(IdentityCollision);
      }
    }

    method UpdateJob(id: int, assign: JobSet, now: int) returns (outcome: Outcome)
      requires Consistent() && id in jobs && assign.claimGeneration.None?
      modifies this`jobs, this`events, this`moved
      ensures (Contents(), outcome) == AfterUpdateJob(old(Contents()), id, assign, now)
      ensures Consistent() && outcome != Raised(IdentityCollision)
      ensures id in jobs && moved == old(moved) + if jobs[id].status != old(jobs)[id].status then {id} else {}
    {
      hide Storable, Valid, Captured, OperationKey, IntText;
      var before := jobs[id];
      var row := Assigned(before, assign);
      if !InColumnRange(row) {
        return Raised(NumericOutOfRange);
      }
      // BEFORE UPDATE OF status
      if assign.status.Some? && before.status == "queued" && row.status == "in_progress" {
        row := row.(claimGeneration := before.claimGeneration + 1);
      }
      if assign.status.Some? && before.status != "queued" && row.status == "queued" {
        row := row.(protocol := 1);
      }
      assert row == BeforeUpdate(before, assign);
      UpdateJobPreserves(Contents(), id, assign, now);
      UpdateJobCaptures(Contents(), id, assign, now, moved);
      if !InColumnRange(row) {
        return Raised(NumericOutOfRange);
      }
      if !JobChecks(row) {
        return Raised(CheckViolation);
      }
      // AFTER UPDATE OF status
      if FiresCapture(before, row, assign) {
        var savepoint := events;
        var error := UpsertEvent(JobEvent(id, row, now));
        if error.Some? {
          events := savepoint;
          return Raised(error.value);
        }
      }
      jobs := jobs[id := row];
      moved := moved + if row.status != before.status then {id} else {};
      outcome := Done(1);
    }

    /** A worker reports the end of the job it claimed. */
    method Finish(id: int, generation: int, status: string, now: int) returns (outcome: Outcome)
      requires Consistent()
      modifies this`jobs, this`events, this`moved
      ensures (Contents(), outcome) == Step(old(Contents()), Call(Statement.Finish(id, generation, status), now))
      ensures Consistent() && outcome != Raised(IdentityCollision)
      ensures status in {"completed", "failed", "cancelled"} ==>
                && (outcome == Done(1) <==>
                      && id in old(jobs) && old(jobs)[id].status == "in_progress"
                      && old(jobs)[id].claimGeneration == generation
                      && (status == "cancelled" <==> old(jobs)[id].cancelRequested))
                && (outcome == Done(1) ==> jobs == old(jobs)[id := old(jobs)[id].(status := status, completedAt := Some(now))])
      ensures status in {"completed", "failed", "cancelled"} && outcome != Done(1) ==> Contents() == old(Contents())
      ensures outcome == Done(1) && status in TERMINAL ==>
                && id in jobs && id in moved
                && EventsOf(Contents(), id, generation, status) == {OperationKey(IntText(id), IntText(generation), status)}
    {
      hide Storable, Valid, Captured, AfterUpdateJob, OperationKey, IntText;
      if status in {"completed", "failed", "cancelled"} { FinishExactly(Contents(), id, generation, status, now); }
      if !FinishMatches(Contents(), id, generation, status) {
        return Done(0);
      }
      outcome := UpdateJob(id, FinishSet(status, now), now);
      if outcome == Done(1) && status in TERMINAL {
        FinishedStatus(old(Contents()), id, generation, status, now);
        NoStepsRun(Contents());
        TerminalJobHasExactlyOneEvent(Contents(), moved, [], id);
      }
    }

    method RecordAction(runId: Uuid, contentId: int, now: int) returns (outcome: Outcome)
      requires Consistent()
      modifies this`actions, this`events, this`nextActionId
      ensures (Contents(), outcome) == AfterRecordAction(old(Contents()), runId, contentId, now)
      ensures Consistent() && outcome != Raised(IdentityCollision)
    {
      hide Storable, Valid, Captured, ActionKey, IntText;
      ValidJobs(Contents());
      RecordActionPreserves(Contents(), runId, contentId, now);
      OthersCapture(Contents(), Call(Statement.RecordAction(runId, contentId), now), moved);
      if nextActionId > INT64_MAX || contentId > INT64_MAX {
        return Raised(NumericOutOfRange);
      }
      if contentId <= 0 {
        return Raised(CheckViolation);
      }
      if exists a | a in actions :: actions[a].runId == runId && actions[a].contentId == contentId {
        return Raised(UniqueViolation);
      }
      var action := Action(runId, contentId, now);
      var savepoint := events;
      var error := UpsertEvent(ActionEvent(nextActionId, action, now));
      if error.Some? {
        events := savepoint;
        return Raised(error.value);
      }
      actions := actions[nextActionId := action];
      nextActionId := nextActionId + 1;
      outcome := Done(1);
    }

    /** workflow_terminal_events_source_identity_immutable: an update may move classification
        and telemetry, never what the event is about. */
    method UpdateEvent(key: string, updated: EventRow) returns (outcome: Outcome)
      requires Consistent()
      modifies this`events
      ensures (Contents(), outcome) == AfterUpdateEvent(old(Contents()), key, updated)
      ensures Consistent() && events.Keys == old(events).Keys
    {
      hide Valid, Captured, Storable;
      ValidJobs(Contents());
      StepPreserves(Contents(), Call(Statement.UpdateEvent(key, updated), 0));
      OthersCapture(Contents(), Call(Statement.UpdateEvent(key, updated), 0), moved);
      if key !in events {
        outcome := Done(0);
      } else if !IdentityUnchanged(events[key], updated) {
        outcome := Raised(IdentityImmutable);
      } else if !Storable(updated) {
        outcome := Raised(CheckViolation);
      } else {
        events := events[key := updated];
        outcome := Done(1);
      }
    }
  }

  lemma UnmovedHasNoEvent(s: State, moved: set<int>, id: int, generation: int, status: string)
    requires Captured(s, moved) && JobsOk(s) && id >= s.nextJobId
    ensures id !in s.jobs && EventsOf(s, id, generation, status) == {}
  {
    hide OperationKey, IntText, JobChecks, InColumnRange;
  }

  lemma NoStepsRun(s: State)
    ensures Run(s, []) == s && Moved(s, []) == {} && AllFollowApplication([])
  {
  }

  lemma FinishedStatus(s: State, id: int, generation: int, status: string, now: int)
    requires FinishMatches(s, id, generation, status) && status in TERMINAL
    ensures var t := AfterUpdateJob(s, id, FinishSet(status, now), now);
            t.1 == Done(1) ==> && id in t.0.jobs && t.0.jobs[id].status == status
                               && t.0.jobs[id].claimGeneration == generation && status != s.jobs[id].status
  {
    hide Storable, OperationKey, IntText;
  }
}
