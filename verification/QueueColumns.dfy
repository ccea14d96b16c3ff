/** Each statement on the queue tables, column by column: what it needs and what it leaves behind,
    with no reference to how its triggers, checks and upsert are put together. */
module QueueColumns {
  import opened Decimals
  import opened SqlLogic
  import opened TerminalEvents
  import opened QueueDatabase
  import opened QueueRuns

  // -----------------------------------------------------------------------------------------
  // Jobs

  /** When an UPDATE of a stored job is accepted, and how it is otherwise refused: a protocol outside
      its column, one below 1 that no requeue replaces, or a claim past the last generation. */
  lemma {:induction false} UpdateAcceptedExactly(s: State, id: int, a: JobSet, now: int)
    requires Valid(s) && id in s.jobs && a.claimGeneration.None?
    ensures var before := s.jobs[id];
            var claimed := before.status == "queued" && a.status == Some("in_progress");
            var requeued := before.status != "queued" && a.status == Some("queued");
            AfterUpdateJob(s, id, a, now).1
            == if a.protocol.Some? && !(-32768 <= a.protocol.value <= 32767) then Raised(NumericOutOfRange)
               else if claimed && before.claimGeneration == 9223372036854775806 then Raised(CheckViolation)
               else if !requeued && a.protocol.Some? && a.protocol.value < 1 then Raised(CheckViolation)
               else Done(1)
  {
    hide Storable, Capture, JobEvent, EventsOk, ActionsCaptured;
    var row := BeforeUpdate(s.jobs[id], a);
    if JobChecks(row) && row.status in TERMINAL {
      CaptureOfJobSucceeds(s, id, row, now);
    }
  }

  /** The columns after an accepted UPDATE, and that nothing but the row and its event moves. */
  lemma {:induction false} UpdatedColumns(s: State, id: int, a: JobSet, now: int)
    requires id in s.jobs && AfterUpdateJob(s, id, a, now).1 == Done(1)
    ensures var (before, t) := (s.jobs[id], AfterUpdateJob(s, id, a, now).0);
            && id in t.jobs && t == s.(jobs := s.jobs[id := t.jobs[id]], events := t.events)
            && var after := t.jobs[id];
            && after.status == (if a.status.Some? then a.status.value else before.status)
            && after.claimGeneration == (if before.status == "queued" && a.status == Some("in_progress")
                                         then before.claimGeneration + 1
                                         else if a.claimGeneration.Some? then a.claimGeneration.value
                                         else before.claimGeneration)
            && after.protocol == (if before.status != "queued" && a.status == Some("queued") then 1
                                  else if a.protocol.Some? then a.protocol.value else before.protocol)
            && after.completedAt == (if a.completedAt.Some? then a.completedAt.value else before.completedAt)
            && after.cancelRequested == (if a.cancelRequested.Some? then a.cancelRequested.value else before.cancelRequested)
  {
    hide Capture, JobEvent;
  }

  lemma KeySpelled(id: string, generation: string, status: string)
    ensures OperationKey(id, generation, status) == "operation:" + id + ":claim:" + generation + ":status:" + status
  {
    var tail := generation + (":status:" + status);
    assert generation + ":status:" + status == tail;
    assert ("operation:" + id + ":claim:" + generation) + (":status:" + status) == ("operation:" + id + ":claim:") + tail;
    assert ("operation:" + id) + (":claim:" + tail) == ("operation:" + id + ":claim:") + tail;
  }

  /** The event an accepted UPDATE writes: one when the status moved to a terminal one and the claim
      has no event for it yet, and otherwise none. */
  lemma {:induction false} UpdatedEvents(s: State, id: int, a: JobSet, now: int)
    requires id in s.jobs && AfterUpdateJob(s, id, a, now).1 == Done(1)
    ensures var (before, t) := (s.jobs[id], AfterUpdateJob(s, id, a, now).0);
            && id in t.jobs && var after := t.jobs[id];
            var key := "operation:" + IntText(id) + ":claim:" + IntText(after.claimGeneration) + ":status:" + after.status;
            var ended := after.status != before.status && after.status in {"completed", "failed", "cancelled"};
            t.events == if ended && key !in s.events
                        then s.events[key := EventRow(key, "operation", Some(id), Some(after.claimGeneration),
                                                      Some(after.status), None, None, None,
                                                      if after.completedAt.Some? then after.completedAt.value else now,
                                                      now, "pending", None)]
                        else s.events
  {
    hide Storable, OperationKey, IntText;
    var after := BeforeUpdate(s.jobs[id], a);
    KeySpelled(IntText(id), IntText(after.claimGeneration), after.status);
  }

  /** A worker's report lands exactly when the job is in progress under the worker's own claim, and
      is reported cancelled exactly when cancellation was requested; otherwise nothing changes. */
  lemma {:induction false} FinishExactly(s: State, id: int, generation: int, status: string, now: int)
    requires Valid(s) && status in {"completed", "failed", "cancelled"}
    ensures var (t, outcome) := Step(s, Call(Finish(id, generation, status), now));
            && (outcome == Done(1) <==>
                  && id in s.jobs && s.jobs[id].status == "in_progress" && s.jobs[id].claimGeneration == generation
                  && (status == "cancelled" <==> s.jobs[id].cancelRequested))
            && (outcome != Done(1) ==> outcome == Done(0) && t == s)
            && (outcome == Done(1) ==>
                  && t.jobs == s.jobs[id := s.jobs[id].(status := status, completedAt := Some(now))]
                  && "operation:" + IntText(id) + ":claim:" + IntText(generation) + ":status:" + status in t.events)
  {
    hide Valid, AfterUpdateJob, IntText;
    if id in s.jobs {
      UpdateAcceptedExactly(s, id, FinishSet(status, now), now);
      if s.jobs[id].status == "in_progress" && s.jobs[id].claimGeneration == generation {
        FinishedColumns(s, id, status, now);
      }
    }
  }

  lemma {:induction false} FinishedColumns(s: State, id: int, status: string, now: int)
    requires Valid(s) && status in {"completed", "failed", "cancelled"} && id in s.jobs
    requires s.jobs[id].status == "in_progress" && AfterUpdateJob(s, id, FinishSet(status, now), now).1 == Done(1)
    ensures var t := AfterUpdateJob(s, id, FinishSet(status, now), now).0;
            && t.jobs == s.jobs[id := s.jobs[id].(status := status, completedAt := Some(now))]
            && "operation:" + IntText(id) + ":claim:" + IntText(s.jobs[id].claimGeneration) + ":status:" + status in t.events
  {
    hide Valid, AfterUpdateJob, IntText;
    UpdatedColumns(s, id, FinishSet(status, now), now);
    UpdatedEvents(s, id, FinishSet(status, now), now);
  }

  /** A direct insert is accepted in any status, within the columns' ranges and constraints, and
      writes no event. */
  lemma InsertExactly(s: State, status: string, generation: int, protocol: int, completedAt: Option<int>, now: int)
    ensures var (t, outcome) := Step(s, Call(Insert(status, generation, protocol, completedAt), now));
            && (outcome == Done(1) <==>
                  && s.nextJobId <= 9223372036854775807
                  && 0 <= generation <= 9223372036854775806 && 1 <= protocol <= 32767)
            && t == if outcome == Done(1)
                    then s.(jobs := s.jobs[s.nextJobId := Job(status, generation, protocol, completedAt, false)],
                            nextJobId := s.nextJobId + 1)
                    else s
  {
  }

  /** Enqueueing is the insert of a queued job at generation 0, under protocol 1. */
  lemma EnqueueIsInsert(s: State, now: int)
    ensures Step(s, Call(Enqueue, now)) == Step(s, Call(Insert("queued", 0, 1, None), now))
  {
  }

  // -----------------------------------------------------------------------------------------
  // Actions and events

  /** An action is recorded once per run and content, with its event. */
  lemma {:induction false} RecordActionExactly(s: State, runId: Uuid, contentId: int, now: int)
    requires Valid(s)
    ensures var (t, outcome) := Step(s, Call(RecordAction(runId, contentId), now));
            var key := "reconciliation-action:" + IntText(s.nextActionId);
            && (outcome == Done(1) <==>
                  && s.nextActionId <= 9223372036854775807 && 1 <= contentId <= 9223372036854775807
                  && forall a :: a in s.actions ==> s.actions[a].runId != runId || s.actions[a].contentId != contentId)
            && t == if outcome == Done(1)
                    then s.(actions := s.actions[s.nextActionId := Action(runId, contentId, now)],
                            nextActionId := s.nextActionId + 1,
                            events := s.events[key := EventRow(key, "reconciliation_action", None, None, None,
                                                               Some(s.nextActionId), Some(runId), Some(contentId),
                                                               now, now, "pending", None)])
                    else s
  {
    hide Storable, Valid, IntText;
    if s.nextActionId <= INT64_MAX && 0 < contentId <= INT64_MAX {
      CaptureOfActionInserts(s, Action(runId, contentId, now), now);
    }
  }

  /** An action is never changed: the statement is refused on every row it would touch. */
  lemma MutateActionRefused(s: State, actionId: int, now: int)
    ensures Step(s, Call(MutateAction(actionId), now)) == (s, if actionId in s.actions then Raised(AppendOnly) else Done(0))
  {
  }

  predicate KnownClassification(text: string) {
    text in {"pending", "ready", "telemetry_only", "rejected"}
  }

  /** What the event table admits, kind by kind, on the columns: its constraints, which admit
      `unknown`, and its column widths come to exactly this. */
  lemma {:induction false} StorableExactly(row: EventRow)
    ensures Storable(row) <==>
              && KnownClassification(row.classification)
              && match row.sourceKind
                 case "operation" =>
                   && row.actionId.None? && row.runId.None? && row.contentId.None?
                   && row.operationId.Some? && 1 <= row.operationId.value <= 9223372036854775807
                   && row.claimGeneration.Some? && 0 <= row.claimGeneration.value <= 9223372036854775807
                   && row.terminalStatus.Some? && row.terminalStatus.value in {"completed", "failed", "cancelled"}
                   && row.eventKey == "operation:" + IntText(row.operationId.value)
                                      + ":claim:" + IntText(row.claimGeneration.value) + ":status:" + row.terminalStatus.value
                 case "reconciliation_action" =>
                   && row.operationId.None? && row.claimGeneration.None? && row.terminalStatus.None?
                   && row.actionId.Some? && 1 <= row.actionId.value <= 9223372036854775807
                   && row.runId.Some? && row.contentId.Some? && 1 <= row.contentId.value <= 9223372036854775807
                   && row.eventKey == "reconciliation-action:" + IntText(row.actionId.value)
                 case "reconciliation_failure" =>
                   && row.operationId.None? && row.claimGeneration.None? && row.terminalStatus.None? && row.actionId.None?
                   && row.runId.Some? && '1' <= row.runId.value[14] <= '5' && row.runId.value[19] in {'8', '9', 'a', 'b'}
                   && row.contentId.Some? && 1 <= row.contentId.value <= 9223372036854775807
                   && row.eventKey == "reconciliation-failure:" + row.runId.value
                                      + ":content:" + IntText(row.contentId.value) + ":reason:apply_failed"
                 case "system_check" =>
                   && row.operationId.None? && row.claimGeneration.None? && row.terminalStatus.None?
                   && row.actionId.None? && row.runId.None? && row.contentId.None?
                   && 31 <= |row.eventKey| <= 160 && row.eventKey[..30] == "system_check:backup_freshness:"
                   && forall i :: 30 <= i < |row.eventKey| ==> '0' <= row.eventKey[i] <= '9'
                 case _ => false
  {
    SourceChecksExact(row);
    match row.sourceKind {
      case "operation" => StorableOperation(row);
      case "reconciliation_action" => StorableAction(row);
      case "reconciliation_failure" => StorableFailure(row);
      case _ =>
        hide PassesSourceChecks;
    }
  }

  lemma StorableOperation(row: EventRow)
    requires row.sourceKind == "operation"
    ensures Storable(row) <==>
              && WellKeyed(row) && KnownClassification(row.classification)
              && 1 <= row.operationId.value <= 9223372036854775807 && 0 <= row.claimGeneration.value <= 9223372036854775807
              && row.terminalStatus.value in {"completed", "failed", "cancelled"}
    ensures row.operationId.Some? && row.claimGeneration.Some? && row.terminalStatus.Some? ==>
              OperationKey(IntText(row.operationId.value), IntText(row.claimGeneration.value), row.terminalStatus.value)
              == "operation:" + IntText(row.operationId.value)
                 + ":claim:" + IntText(row.claimGeneration.value) + ":status:" + row.terminalStatus.value
  {
    SourceChecksExact(row);
    hide PassesSourceChecks, IntText;
    if row.operationId.Some? && row.claimGeneration.Some? && row.terminalStatus.Some? {
      KeySpelled(IntText(row.operationId.value), IntText(row.claimGeneration.value), row.terminalStatus.value);
      if 0 <= row.operationId.value <= INT64_MAX && 0 <= row.claimGeneration.value <= INT64_MAX {
        DecimalLength(row.operationId.value);
        DecimalLength(row.claimGeneration.value);
      }
    }
  }

  lemma StorableAction(row: EventRow)
    requires row.sourceKind == "reconciliation_action"
    ensures Storable(row) <==>
              && WellKeyed(row) && KnownClassification(row.classification)
              && 1 <= row.actionId.value <= 9223372036854775807 && 1 <= row.contentId.value <= 9223372036854775807
  {
    SourceChecksExact(row);
    hide PassesSourceChecks, IntText;
    if row.actionId.Some? && 0 <= row.actionId.value <= INT64_MAX { DecimalLength(row.actionId.value); }
  }

  lemma FailureKeySpelled(run: string, content: string)
    ensures FailureKey(run, content) == "reconciliation-failure:" + run + ":content:" + content + ":reason:apply_failed"
  {
    var tail := content + ":reason:apply_failed";
    assert ("reconciliation-failure:" + run) + (":content:" + tail) == ("reconciliation-failure:" + run + ":content:") + tail;
    assert ("reconciliation-failure:" + run + ":content:" + content) + ":reason:apply_failed"
        == ("reconciliation-failure:" + run + ":content:") + tail;
  }

  lemma StorableFailure(row: EventRow)
    requires row.sourceKind == "reconciliation_failure"
    ensures Storable(row) <==>
              && WellKeyed(row) && KnownClassification(row.classification)
              && 1 <= row.contentId.value <= 9223372036854775807
    ensures row.runId.Some? && row.contentId.Some? ==>
              FailureKey(row.runId.value, IntText(row.contentId.value))
              == "reconciliation-failure:" + row.runId.value + ":content:" + IntText(row.contentId.value) + ":reason:apply_failed"
  {
    SourceChecksExact(row);
    hide PassesSourceChecks, IntText;
    if row.runId.Some? && row.contentId.Some? {
      FailureKeySpelled(row.runId.value, IntText(row.contentId.value));
      if 0 <= row.contentId.value <= INT64_MAX { DecimalLength(row.contentId.value); }
    }
  }

  lemma StorableAfterMove(before: EventRow, after: EventRow)
    requires Storable(before) && IdentityUnchanged(before, after)
    ensures Storable(after) <==> KnownClassification(after.classification)
  {
    SourceChecksExact(before);
    SourceChecksExact(after);
    hide PassesSourceChecks;
  }

  /** An UPDATE of a stored event may move its classification, to a known one, and its telemetry
      time, and nothing else. */
  lemma {:induction false} UpdateEventExactly(s: State, key: string, updated: EventRow, now: int)
    requires EventsOk(s)
    ensures var (t, outcome) := Step(s, Call(UpdateEvent(key, updated), now));
            && (outcome == Done(1) <==>
                  && key in s.events && KnownClassification(updated.classification)
                  && updated.eventKey == s.events[key].eventKey && updated.sourceKind == s.events[key].sourceKind
                  && updated.operationId == s.events[key].operationId
                  && updated.claimGeneration == s.events[key].claimGeneration
                  && updated.terminalStatus == s.events[key].terminalStatus
                  && updated.actionId == s.events[key].actionId && updated.runId == s.events[key].runId
                  && updated.contentId == s.events[key].contentId
                  && updated.occurredAt == s.events[key].occurredAt && updated.createdAt == s.events[key].createdAt)
            && t == if outcome == Done(1) then s.(events := s.events[key := updated]) else s
  {
    hide Storable, IntText;
    if key in s.events && IdentityUnchanged(s.events[key], updated) {
      StorableAfterMove(s.events[key], updated);
    }
  }

  /** A direct event insert stores an admissible row under a free key and leaves a taken key alone. */
  lemma RecordEvidenceExactly(s: State, row: EventRow, now: int)
    ensures Step(s, Call(RecordEvidence(row), now))
         == if !Storable(row) then (s, Raised(CheckViolation))
            else if row.eventKey in s.events then (s, Done(0))
            else (s.(events := s.events[row.eventKey := row]), Done(1))
  {
    hide Storable;
  }
}
