/** The durable queue tables as a state machine: every statement runs its BEFORE triggers, its
    check constraints and its AFTER trigger atomically, and a raise leaves the tables as they were. */
module QueueDatabase {
  import opened Decimals
  import opened SqlLogic
  import opened TerminalEvents

  datatype Job = Job(
    status: string,
    claimGeneration: int,
    protocol: int,
    completedAt: Option<int>,
    cancelRequested: bool)

  datatype Action = Action(runId: Uuid, contentId: int, createdAt: int)

  datatype State = State(
    jobs: map<int, Job>,
    events: map<string, EventRow>,   // by event_key, which is unique
    actions: map<int, Action>,
    nextJobId: int,                  // the BIGSERIAL sequences
    nextActionId: int)

  /** The SET list of an UPDATE; None is a column the statement does not assign. */
  datatype JobSet = JobSet(
    status: Option<string>,
    claimGeneration: Option<int>,
    protocol: Option<int>,
    completedAt: Option<Option<int>>,
    cancelRequested: Option<bool>)

  datatype Statement =
    | Enqueue
    | Insert(status: string, claimGeneration: int, protocol: int, completedAt: Option<int>)
    | UpdateJob(id: int, whenStatus: Option<string>, assign: JobSet)
    | Finish(id: int, generation: int, status: string)
    | RecordAction(runId: Uuid, contentId: int)
    | MutateAction(actionId: int)
    | RecordEvidence(row: EventRow)
    | UpdateEvent(key: string, updated: EventRow)

  /** A statement and the transaction time at which it runs. */
  datatype Call = Call(statement: Statement, now: int)

  datatype Error =
    | CheckViolation | NumericOutOfRange | UniqueViolation
    | IdentityCollision | IdentityImmutable | AppendOnly

  datatype Outcome = Done(rows: nat) | Raised(error: Error)

  // -----------------------------------------------------------------------------------------
  // Triggers and constraints

  function Assigned(job: Job, a: JobSet): (r: Job) {
    Job(if a.status.Some? then a.status.value else job.status,
        if a.claimGeneration.Some? then a.claimGeneration.value else job.claimGeneration,
        if a.protocol.Some? then a.protocol.value else job.protocol,
        if a.completedAt.Some? then a.completedAt.value else job.completedAt,
        if a.cancelRequested.Some? then a.cancelRequested.value else job.cancelRequested)
  }

  /** pgqueuer_jobs_advance_claim_generation, then pgqueuer_jobs_reset_claim_protocol: both are
      BEFORE UPDATE OF status and run only when the SET list names the column. */
  function BeforeUpdate(before: Job, a: JobSet): (r: Job) {
    var row := Assigned(before, a);
    if a.status.None? then row
    else if before.status == "queued" && row.status == "in_progress" then
      row.(claimGeneration := before.claimGeneration + 1)
    else if before.status != "queued" && row.status == "queued" then
      row.(protocol := 1)
    else row
  }

  predicate InColumnRange(job: Job) {
    && -(INT64_MAX as int) - 1 <= job.claimGeneration <= INT64_MAX
    && -32768 <= job.protocol <= 32767
  }

  /** The observable bound of revision e4b7c9d2a610 and the protocol constraint. */
  predicate JobChecks(job: Job) {
    0 <= job.claimGeneration <= CLAIM_GENERATION_MAX && job.protocol >= 1
  }

  predicate FiresCapture(before: Job, after: Job, a: JobSet) {
    a.status.Some? && before.status != after.status && after.status in TERMINAL
  }

  function JobEvent(id: int, job: Job, now: int): (r: EventRow) {
    EventRow(OperationKey(IntText(id), IntText(job.claimGeneration), job.status), "operation",
             Some(id), Some(job.claimGeneration), Some(job.status), None, None, None,
             if job.completedAt.Some? then job.completedAt.value else now, now, "pending", None)
  }

  function ActionEvent(id: int, action: Action, now: int): (r: EventRow) {
    EventRow(ActionKey(IntText(id)), "reconciliation_action", None, None, None,
             Some(id), Some(action.runId), Some(action.contentId),
             action.createdAt, now, "pending", None)
  }

  /** The WHERE of the upsert, in three-valued logic: only `true` selects the row. */
  predicate SameIdentity(existing: EventRow, excluded: EventRow) {
    if excluded.sourceKind == "operation" then
      And(Equals(Some(existing.sourceKind), Some(excluded.sourceKind)),
          And(Equals(existing.operationId, excluded.operationId),
              And(Equals(existing.claimGeneration, excluded.claimGeneration),
                  Equals(existing.terminalStatus, excluded.terminalStatus)))) == True
    else
      And(Equals(Some(existing.sourceKind), Some(excluded.sourceKind)),
          And(Equals(existing.actionId, excluded.actionId),
              And(Equals(existing.runId, excluded.runId),
                  Equals(existing.contentId, excluded.contentId)))) == True
  }

  /** INSERT ... ON CONFLICT (event_key) DO UPDATE ... RETURNING id, and the raise when no id
      came back. Constraints of the proposed row are checked before the conflict is looked up. */
  function Capture(events: map<string, EventRow>, row: EventRow): (r: (map<string, EventRow>, Option<Error>)) {
    if !Storable(row) then (events, Some(CheckViolation))
    else if row.eventKey !in events then (events[row.eventKey := row], None)
    else if SameIdentity(events[row.eventKey], row) then (events, None)
    else (events, Some(IdentityCollision))
  }

  predicate IdentityUnchanged(before: EventRow, after: EventRow) {
    after == before.(classification := after.classification, telemetryEmittedAt := after.telemetryEmittedAt)
  }

  // -----------------------------------------------------------------------------------------
  // Statements

  function AfterEnqueue(s: State): (r: (State, Outcome)) {
    if s.nextJobId > INT64_MAX then (s, Raised(NumericOutOfRange))
    else (s.(jobs := s.jobs[s.nextJobId := Job("queued", 0, 1, None, false)],
             nextJobId := s.nextJobId + 1), Done(1))
  }

  /** A direct INSERT. The triggers are all on UPDATE, so the constraints alone look at the row. */
  function AfterInsert(s: State, row: Job): (r: (State, Outcome)) {
    if s.nextJobId > INT64_MAX || !InColumnRange(row) then (s, Raised(NumericOutOfRange))
    else if !JobChecks(row) then (s, Raised(CheckViolation))
    else (s.(jobs := s.jobs[s.nextJobId := row], nextJobId := s.nextJobId + 1), Done(1))
  }

  function AfterUpdateJob(s: State, id: int, a: JobSet, now: int): (r: (State, Outcome))
    requires id in s.jobs
  {
    var before := s.jobs[id];
    var row := BeforeUpdate(before, a);
    if !InColumnRange(Assigned(before, a)) || !InColumnRange(row) then (s, Raised(NumericOutOfRange))
    else if !JobChecks(row) then (s, Raised(CheckViolation))
    else if !FiresCapture(before, row, a) then (s.(jobs := s.jobs[id := row]), Done(1))
    else
      var (events, error) := Capture(s.events, JobEvent(id, row, now));
      if error.Some? then (s, Raised(error.value))
      else (s.(jobs := s.jobs[id := row], events := events), Done(1))
  }

  /** The worker's guarded completion, failure and cancellation checkpoint. */
  predicate FinishMatches(s: State, id: int, generation: int, status: string) {
    && id in s.jobs
    && s.jobs[id].status == "in_progress"
    && s.jobs[id].claimGeneration == generation
    && s.jobs[id].cancelRequested == (status == "cancelled")
  }

  function FinishSet(status: string, now: int): (a: JobSet) {
    JobSet(Some(status), None, None, Some(Some(now)), None)
  }

  function AfterRecordAction(s: State, runId: Uuid, contentId: int, now: int): (r: (State, Outcome)) {
    if s.nextActionId > INT64_MAX || contentId > INT64_MAX then (s, Raised(NumericOutOfRange))
    else if contentId <= 0 then (s, Raised(CheckViolation))
    else if exists a | a in s.actions :: s.actions[a].runId == runId && s.actions[a].contentId == contentId then
      (s, Raised(UniqueViolation))
    else
      var action := Action(runId, contentId, now);
      var (events, error) := Capture(s.events, ActionEvent(s.nextActionId, action, now));
      if error.Some? then (s, Raised(error.value))
      else (s.(actions := s.actions[s.nextActionId := action], events := events,
               nextActionId := s.nextActionId + 1), Done(1))
  }

  /** A direct insert into the event table: ON CONFLICT DO NOTHING. */
  function AfterRecordEvidence(s: State, row: EventRow): (r: (State, Outcome)) {
    if !Storable(row) then (s, Raised(CheckViolation))
    else if row.eventKey in s.events then (s, Done(0))
    else (s.(events := s.events[row.eventKey := row]), Done(1))
  }

  function AfterUpdateEvent(s: State, key: string, updated: EventRow): (r: (State, Outcome)) {
    if key !in s.events then (s, Done(0))
    else if !IdentityUnchanged(s.events[key], updated) then (s, Raised(IdentityImmutable))
    else if !Storable(updated) then (s, Raised(CheckViolation))
    else (s.(events := s.events[key := updated]), Done(1))
  }

  function Step(s: State, c: Call): (r: (State, Outcome)) {
    match c.statement
    case Enqueue => AfterEnqueue(s)
    case Insert(status, claimGeneration, protocol, completedAt) =>
      AfterInsert(s, Job(status, claimGeneration, protocol, completedAt, false))
    case UpdateJob(id, whenStatus, assign) =>
      if id !in s.jobs || (whenStatus.Some? && s.jobs[id].status != whenStatus.value) then (s, Done(0))
      else AfterUpdateJob(s, id, assign, c.now)
    case Finish(id, generation, status) =>
      if !FinishMatches(s, id, generation, status) then (s, Done(0))
      else AfterUpdateJob(s, id, FinishSet(status, c.now), c.now)
    case RecordAction(runId, contentId) => AfterRecordAction(s, runId, contentId, c.now)
    case MutateAction(actionId) => if actionId in s.actions then (s, Raised(AppendOnly)) else (s, Done(0))
    case RecordEvidence(row) => AfterRecordEvidence(s, row)
    case UpdateEvent(key, updated) => AfterUpdateEvent(s, key, updated)
  }

  function Run(s: State, calls: seq<Call>): (r: State)
    decreases |calls|
  {
    if calls == [] then s else Run(Step(s, calls[0]).0, calls[1..])
  }

  // -----------------------------------------------------------------------------------------
  // Invariants

  /** What the application's own statements keep to: no UPDATE assigns claim_generation, which the
      trigger alone moves, and the events of jobs and actions are left to the capture triggers. */
  predicate FollowsApplication(c: Call) {
    && (c.statement.UpdateJob? ==> c.statement.assign.claimGeneration.None?)
    && (c.statement.RecordEvidence? ==>
          c.statement.row.sourceKind in {"reconciliation_failure", "system_check"})
  }

  ghost predicate AllFollowApplication(calls: seq<Call>) {
    forall i :: 0 <= i < |calls| ==> FollowsApplication(calls[i])
  }

  ghost predicate JobsOk(s: State) {
    && s.nextJobId <= INT64_MAX + 1
    && forall id :: id in s.jobs ==> 0 < id < s.nextJobId && JobChecks(s.jobs[id]) && InColumnRange(s.jobs[id])
  }

  ghost predicate EventsOk(s: State) {
    forall k :: k in s.events ==>
      && s.events[k].eventKey == k && Storable(s.events[k])
      && (s.events[k].sourceKind == "operation" ==>
            && s.events[k].operationId.Some? && s.events[k].operationId.value in s.jobs
            && s.events[k].claimGeneration.Some?
            && s.events[k].claimGeneration.value <= s.jobs[s.events[k].operationId.value].claimGeneration)
      && (s.events[k].sourceKind == "reconciliation_action" ==>
            && s.events[k].actionId.Some? && s.events[k].actionId.value in s.actions
            && s.events[k].runId == Some(s.actions[s.events[k].actionId.value].runId)
            && s.events[k].contentId == Some(s.actions[s.events[k].actionId.value].contentId))
  }

  ghost predicate ActionsOk(s: State) {
    && 0 < s.nextActionId <= INT64_MAX + 1
    && forall a :: a in s.actions ==> 0 < a < s.nextActionId
  }

  ghost predicate ActionsCaptured(s: State) {
    forall a :: a in s.actions ==> ActionKey(IntText(a)) in s.events
  }

  ghost predicate Valid(s: State) {
    0 < s.nextJobId && JobsOk(s) && EventsOk(s) && ActionsOk(s) && ActionsCaptured(s)
  }

  /** The jobs whose status a call changes. */
  ghost function MovedBy(s: State, c: Call): (ids: set<int>) {
    set id | id in s.jobs && id in Step(s, c).0.jobs && s.jobs[id].status != Step(s, c).0.jobs[id].status
  }

  /** With `moved` the jobs whose status some UPDATE has changed: those that are terminal have their
      event, and no job outside it has any. */
  ghost predicate Captured(s: State, moved: set<int>) {
    && moved <= s.jobs.Keys
    && (forall id :: id in moved && s.jobs[id].status in TERMINAL ==>
          OperationKey(IntText(id), IntText(s.jobs[id].claimGeneration), s.jobs[id].status) in s.events)
    && (forall k :: k in s.events && s.events[k].operationId.Some? ==> s.events[k].operationId.value in moved)
  }

  const EMPTY := State(map[], map[], map[], 1, 1)

  lemma DecimalLength(n: int)
    requires 0 <= n <= INT64_MAX
    ensures |IntText(n)| <= 19
  {
    RenderIsCanonical(n);
    Pow19();
    LengthBoundsValue(Render(n), 19);
  }

  /** The constraints of the event table never stop a terminal update: key width included. */
  lemma JobEventStorable(id: int, job: Job, now: int)
    requires 0 < id <= INT64_MAX && JobChecks(job) && job.status in TERMINAL
    ensures Storable(JobEvent(id, job, now))
  {
    DecimalLength(id);
    DecimalLength(job.claimGeneration);
    SourceChecksExact(JobEvent(id, job, now));
  }

  lemma ActionEventStorable(id: int, action: Action, now: int)
    requires 0 < id <= INT64_MAX && 0 < action.contentId <= INT64_MAX
    ensures Storable(ActionEvent(id, action, now))
  {
    DecimalLength(id);
    SourceChecksExact(ActionEvent(id, action, now));
  }

  /** On a key conflict the stored row is the same event: the collision branch is dead. */
  lemma CaptureOfJobSucceeds(s: State, id: int, job: Job, now: int)
    requires Valid(s) && id in s.jobs && JobChecks(job) && job.status in TERMINAL
    ensures Capture(s.events, JobEvent(id, job, now)).1 == None
  {
    var row := JobEvent(id, job, now);
    JobEventStorable(id, job, now);
    if row.eventKey in s.events {
      SourceChecksExact(s.events[row.eventKey]);
      SourceChecksExact(row);
      KeyDeterminesIdentity(s.events[row.eventKey], row);
    }
  }

  lemma CaptureOfActionInserts(s: State, action: Action, now: int)
    requires Valid(s) && s.nextActionId <= INT64_MAX && 0 < action.contentId <= INT64_MAX
    ensures Storable(ActionEvent(s.nextActionId, action, now))
    ensures ActionKey(IntText(s.nextActionId)) !in s.events
  {
    var row := ActionEvent(s.nextActionId, action, now);
    ActionEventStorable(s.nextActionId, action, now);
    if row.eventKey in s.events {
      SourceChecksExact(s.events[row.eventKey]);
      SourceChecksExact(row);
      KeyDeterminesIdentity(s.events[row.eventKey], row);
      assert false;
    }
  }

  /** Replacing a job's row, and perhaps inserting its event, keeps the invariants. */
  lemma JobReplaced(s: State, t: State, id: int, row: Job)
    requires Valid(s) && id in s.jobs && JobChecks(row) && InColumnRange(row)
    requires row.claimGeneration >= s.jobs[id].claimGeneration
    requires t == s.(jobs := s.jobs[id := row], events := t.events)
    requires EventsOk(s.(jobs := s.jobs[id := row], events := t.events))
    requires forall k :: k in s.events ==> k in t.events
    ensures Valid(t)
  {
    hide Storable, EventsOk, OperationKey, ActionKey, IntText;
  }

  /** A later claim of a job, and the event of that claim, fit the events stored so far. */
  lemma EventsFitLaterClaim(s: State, id: int, row: Job, now: int)
    requires EventsOk(s) && id in s.jobs && row.claimGeneration >= s.jobs[id].claimGeneration
    ensures EventsOk(s.(jobs := s.jobs[id := row]))
    ensures EventsOk(s.(jobs := s.jobs[id := row], events := Capture(s.events, JobEvent(id, row, now)).0))
  {
    hide Storable, SameIdentity, OperationKey, IntText;
  }

  lemma {:induction false} UpdateJobPreserves(s: State, id: int, a: JobSet, now: int)
    requires Valid(s) && id in s.jobs && a.claimGeneration.None?
    ensures Valid(AfterUpdateJob(s, id, a, now).0)
    ensures AfterUpdateJob(s, id, a, now).1 != Raised(IdentityCollision)
  {
    hide Storable, EventsOk, Capture, ActionsCaptured, OperationKey, IntText;
    var before := s.jobs[id];
    var row := BeforeUpdate(before, a);
    if InColumnRange(Assigned(before, a)) && InColumnRange(row) && JobChecks(row) {
      assert row.claimGeneration >= before.claimGeneration;
      EventsFitLaterClaim(s, id, row, now);
      CaptureKeeps(s.events, JobEvent(id, row, now));
      if FiresCapture(before, row, a) {
        CaptureOfJobSucceeds(s, id, row, now);
      }
      JobReplaced(s, AfterUpdateJob(s, id, a, now).0, id, row);
    }
  }

  lemma CaptureKeeps(events: map<string, EventRow>, row: EventRow)
    ensures forall k :: k in events ==> k in Capture(events, row).0 && Capture(events, row).0[k] == events[k]
  {
    hide Storable;
  }

  lemma {:induction false} RecordActionPreserves(s: State, runId: Uuid, contentId: int, now: int)
    requires Valid(s)
    ensures Valid(AfterRecordAction(s, runId, contentId, now).0)
    ensures AfterRecordAction(s, runId, contentId, now).1 != Raised(IdentityCollision)
  {
    hide Storable, OperationKey, ActionKey, IntText;
    if s.nextActionId <= INT64_MAX && 0 < contentId <= INT64_MAX {
      CaptureOfActionInserts(s, Action(runId, contentId, now), now);
    }
  }

  lemma EnqueuePreserves(s: State)
    requires Valid(s)
    ensures Valid(AfterEnqueue(s).0) && AfterEnqueue(s).1 != Raised(IdentityCollision)
  {
    hide Storable, OperationKey, ActionKey, IntText;
  }

  lemma InsertPreserves(s: State, row: Job)
    requires Valid(s)
    ensures Valid(AfterInsert(s, row).0) && AfterInsert(s, row).1 != Raised(IdentityCollision)
  {
    hide Storable, OperationKey, ActionKey, IntText;
  }

  lemma RecordEvidencePreserves(s: State, row: EventRow)
    requires Valid(s) && row.sourceKind in {"reconciliation_failure", "system_check"}
    ensures Valid(AfterRecordEvidence(s, row).0) && AfterRecordEvidence(s, row).1 != Raised(IdentityCollision)
  {
    hide Storable, OperationKey, ActionKey, IntText;
  }

  lemma {:induction false} UpdateEventPreserves(s: State, key: string, updated: EventRow)
    requires Valid(s)
    ensures Valid(AfterUpdateEvent(s, key, updated).0) && AfterUpdateEvent(s, key, updated).1 != Raised(IdentityCollision)
  {
    hide Storable, OperationKey, ActionKey, IntText;
  }

  /** One statement keeps every invariant, and never reports an identity collision. */
  lemma {:induction false} StepPreserves(s: State, c: Call)
    requires Valid(s) && FollowsApplication(c)
    ensures Valid(Step(s, c).0)
    ensures Step(s, c).1 != Raised(IdentityCollision)
  {
    hide Valid, Storable, AfterUpdateJob, AfterRecordAction, AfterRecordEvidence, AfterUpdateEvent, AfterEnqueue, AfterInsert;
    match c.statement
    case UpdateJob(id, whenStatus, assign) =>
      if id in s.jobs { UpdateJobPreserves(s, id, assign, c.now); }
    case Finish(id, generation, status) =>
      if id in s.jobs { UpdateJobPreserves(s, id, FinishSet(status, c.now), c.now); }
    case RecordAction(runId, contentId) => RecordActionPreserves(s, runId, contentId, c.now);
    case RecordEvidence(row) => RecordEvidencePreserves(s, row);
    case UpdateEvent(key, updated) => UpdateEventPreserves(s, key, updated);
    case Enqueue => EnqueuePreserves(s);
    case Insert(status, generation, protocol, at) => InsertPreserves(s, Job(status, generation, protocol, at, false));
    case MutateAction(_) =>
  }

  /** A job's row, its status changed or not, replaced with the events its capture left. */
  lemma {:induction false} JobReplacedCaptured(s: State, t: State, id: int, row: Job, moved: set<int>, now: int)
    requires Captured(s, moved) && id in s.jobs
    requires t == s.(jobs := s.jobs[id := row], events := t.events)
    requires forall k :: k in s.events ==> k in t.events && t.events[k] == s.events[k]
    requires row.status == s.jobs[id].status ==>
               row.claimGeneration == s.jobs[id].claimGeneration && t.events == s.events
    requires forall k :: k in t.events && k !in s.events ==> t.events[k].operationId == Some(id)
    requires row.status != s.jobs[id].status && row.status in TERMINAL ==>
               OperationKey(IntText(id), IntText(row.claimGeneration), row.status) in t.events
    ensures Captured(t, moved + if row.status != s.jobs[id].status then {id} else {})
  {
    hide OperationKey, IntText;
  }

  lemma {:induction false} UpdateJobCaptures(s: State, id: int, a: JobSet, now: int, moved: set<int>)
    requires Captured(s, moved) && id in s.jobs && a.claimGeneration.None?
    ensures var t := AfterUpdateJob(s, id, a, now).0;
            && t.jobs.Keys == s.jobs.Keys
            && (forall j :: j in s.jobs && j != id ==> t.jobs[j] == s.jobs[j])
            && Captured(t, moved + if t.jobs[id].status != s.jobs[id].status then {id} else {})
  {
    hide Storable, SameIdentity, Captured, OperationKey, IntText;
    var t := AfterUpdateJob(s, id, a, now).0;
    if t.jobs[id] == s.jobs[id] && t.events == s.events {
      assert t == s && moved + {} == moved;
    } else {
      JobReplacedCaptured(s, t, id, BeforeUpdate(s.jobs[id], a), moved, now);
    }
  }

  lemma {:induction false} InsertCaptures(s: State, row: Job, moved: set<int>)
    requires Captured(s, moved) && JobsOk(s)
    ensures Captured(AfterInsert(s, row).0, moved)
  {
    hide JobChecks, InColumnRange, OperationKey, IntText;
    var t := AfterInsert(s, row).0;
    assert forall id :: id in s.jobs ==> id in t.jobs && t.jobs[id] == s.jobs[id];
  }

  lemma {:induction false} EvidenceCaptures(s: State, row: EventRow, moved: set<int>)
    requires Captured(s, moved) && row.sourceKind in {"reconciliation_failure", "system_check"}
    ensures Captured(AfterRecordEvidence(s, row).0, moved)
  {
    hide PassesSourceChecks, PassesColumnChecks, OperationKey, IntText;
    if Storable(row) {
      SourceChecksExact(row);
    }
  }

  lemma {:induction false} OthersCapture(s: State, c: Call, moved: set<int>)
    requires Captured(s, moved) && JobsOk(s) && FollowsApplication(c) && !c.statement.UpdateJob? && !c.statement.Finish?
    ensures Captured(Step(s, c).0, moved) && MovedBy(s, c) == {}
  {
    hide Storable, SameIdentity, JobChecks, InColumnRange, AfterRecordEvidence, OperationKey, ActionKey, IntText;
    match c.statement
    case Enqueue => InsertCaptures(s, Job("queued", 0, 1, None, false), moved);
    case Insert(status, generation, protocol, at) => InsertCaptures(s, Job(status, generation, protocol, at, false), moved);
    case RecordEvidence(row) => EvidenceCaptures(s, row, moved); EvidenceKeepsJobs(s, row);
    case _ =>
  }

  lemma EvidenceKeepsJobs(s: State, row: EventRow)
    ensures AfterRecordEvidence(s, row).0.jobs == s.jobs
  {
    hide Storable;
  }

  /** One call adds the jobs it moves to those that have been moved, and nothing else happens to
      the correspondence between terminal jobs and events. */
  lemma {:induction false} StepCaptures(s: State, c: Call, moved: set<int>)
    requires JobsOk(s) && Captured(s, moved) && FollowsApplication(c)
    ensures Captured(Step(s, c).0, moved + MovedBy(s, c))
  {
    hide Captured, AfterUpdateJob, AfterRecordAction, AfterRecordEvidence, AfterUpdateEvent, AfterEnqueue, AfterInsert;
    match c.statement
    case UpdateJob(id, _, assign) =>
      if id in s.jobs { UpdateJobCaptures(s, id, assign, c.now, moved); }
      MovedByUpdate(s, c, id, moved);
    case Finish(id, _, status) =>
      if id in s.jobs { UpdateJobCaptures(s, id, FinishSet(status, c.now), c.now, moved); }
      MovedByUpdate(s, c, id, moved);
    case _ =>
      OthersCapture(s, c, moved);
      assert moved + {} == moved;
  }

  lemma MovedByUpdate(s: State, c: Call, id: int, moved: set<int>)
    requires Step(s, c).0 == s || id in s.jobs
    requires Step(s, c).0.jobs.Keys == s.jobs.Keys
    requires forall j :: j in s.jobs && j != id ==> Step(s, c).0.jobs[j] == s.jobs[j]
    ensures MovedBy(s, c) == if id in s.jobs && Step(s, c).0.jobs[id].status != s.jobs[id].status then {id} else {}
    ensures moved + {} == moved
  {
    hide Step;
  }

  lemma {:induction false} RunPreserves(s: State, calls: seq<Call>)
    requires Valid(s) && AllFollowApplication(calls)
    ensures Valid(Run(s, calls))
    decreases |calls|
  {
    if calls != [] {
      StepPreserves(s, calls[0]);
      RunPreserves(Step(s, calls[0]).0, calls[1..]);
    }
  }
}
