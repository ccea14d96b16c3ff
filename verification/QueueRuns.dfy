/** What the queue tables guarantee over whole runs of statements. */
module QueueRuns {
  import opened Decimals
  import opened SqlLogic
  import opened TerminalEvents
  import opened QueueDatabase

  // -----------------------------------------------------------------------------------------
  // Terminal capture

  ghost predicate IsEventOf(row: EventRow, id: int, generation: int, status: string) {
    && row.sourceKind == "operation" && row.operationId == Some(id)
    && row.claimGeneration == Some(generation) && row.terminalStatus == Some(status)
  }

  /** The keys of the events recorded for one claim of an operation ending in one status. */
  ghost function EventsOf(s: State, id: int, generation: int, status: string): (keys: set<string>) {
    set k | k in s.events && IsEventOf(s.events[k], id, generation, status)
  }

  /** The jobs whose status some call of the run changed. */
  ghost function Moved(s: State, calls: seq<Call>): (ids: set<int>)
    decreases |calls|
  {
    if calls == [] then {} else MovedBy(s, calls[0]) + Moved(Step(s, calls[0]).0, calls[1..])
  }

  lemma {:induction false} RunCaptures(s: State, calls: seq<Call>, moved: set<int>)
    requires Valid(s) && Captured(s, moved) && AllFollowApplication(calls)
    ensures Captured(Run(s, calls), moved + Moved(s, calls))
    decreases |calls|
  {
    hide Valid, Captured, Step, MovedBy, FollowsApplication;
    if calls == [] {
      assert moved + {} == moved;
    } else {
      assert JobsOk(s) by { ValidJobs(s); }
      StepPreserves(s, calls[0]);
      StepCaptures(s, calls[0], moved);
      RunCaptures(Step(s, calls[0]).0, calls[1..], moved + MovedBy(s, calls[0]));
      assert moved + MovedBy(s, calls[0]) + Moved(Step(s, calls[0]).0, calls[1..]) == moved + Moved(s, calls);
    }
  }

  lemma ValidJobs(s: State)
    requires Valid(s)
    ensures JobsOk(s) && EventsOk(s)
  {
  }

  /** After any run a terminal job has its one event, under its formatted key, exactly when some
      UPDATE changed its status; a row inserted terminal and never moved since has none. */
  lemma {:induction false} TerminalJobHasExactlyOneEvent(s: State, moved: set<int>, calls: seq<Call>, id: int)
    requires Valid(s) && Captured(s, moved) && AllFollowApplication(calls)
    requires id in Run(s, calls).jobs && Run(s, calls).jobs[id].status in TERMINAL
    ensures var t := Run(s, calls); var job := t.jobs[id];
            EventsOf(t, id, job.claimGeneration, job.status)
              == if id in moved + Moved(s, calls)
                 then {OperationKey(IntText(id), IntText(job.claimGeneration), job.status)} else {}
  {
    hide IntText, OperationKey, Run, Moved, Valid, PassesColumnChecks, PassesSourceChecks;
    RunPreserves(s, calls);
    RunCaptures(s, calls, moved);
    var t := Run(s, calls);
    ValidJobs(t);
    var job := t.jobs[id];
    var key := OperationKey(IntText(id), IntText(job.claimGeneration), job.status);
    if id in moved + Moved(s, calls) {
      EventUnderItsKey(t, key, id, job.claimGeneration, job.status);
    }
    forall k | k in EventsOf(t, id, job.claimGeneration, job.status)
      ensures k == key
    {
      SourceChecksExact(t.events[k]);
    }
  }

  /** A completed job inserted as such, and then updated without touching its status, is terminal
      and has no event of any kind. */
  lemma InsertedTerminalHasNoEvent()
    ensures var calls := [Call(Insert("completed", 0, 2, Some(0)), 0),
                          Call(UpdateJob(1, None, JobSet(None, None, None, None, Some(false))), 1)];
            var t := Run(EMPTY, calls);
            && 1 in t.jobs && t.jobs[1].status in TERMINAL && t.events == map[] && Moved(EMPTY, calls) == {}
  {
    var a := Call(Insert("completed", 0, 2, Some(0)), 0);
    var b := Call(UpdateJob(1, None, JobSet(None, None, None, None, Some(false))), 1);
    var s1 := Step(EMPTY, a).0;
    var s2 := Step(s1, b).0;
    assert [a, b][1..] == [b] && [b][1..] == [];
    assert Run(EMPTY, [a, b]) == Run(s1, [b]) == Run(s2, []) == s2;
    assert s1.jobs == map[1 := Job("completed", 0, 2, Some(0), false)] && s2.jobs == s1.jobs;
    assert MovedBy(EMPTY, a) == {} && MovedBy(s1, b) == {};
    assert Moved(EMPTY, [a, b]) == MovedBy(EMPTY, a) + Moved(s1, [b]);
    assert Moved(s1, [b]) == MovedBy(s1, b) + Moved(s2, []);
  }

  lemma EventUnderItsKey(s: State, key: string, id: int, generation: int, status: string)
    requires EventsOk(s) && key in s.events
    requires key == OperationKey(IntText(id), IntText(generation), status)
    ensures IsEventOf(s.events[key], id, generation, status)
  {
    var row := s.events[key];
    SourceChecksExact(row);
    KeyPrefix(row);
    OperationKeyInjective(row.operationId.value, row.claimGeneration.value, row.terminalStatus.value,
                          id, generation, status);
  }

  ghost function EventsOfAction(s: State, id: int): (keys: set<string>) {
    set k | k in s.events && s.events[k].sourceKind == "reconciliation_action" && s.events[k].actionId == Some(id)
  }

  /** Every reconciliation action has exactly one event, carrying its run and content. */
  lemma {:induction false} ActionHasExactlyOneEvent(s: State, calls: seq<Call>, id: int)
    requires Valid(s) && AllFollowApplication(calls) && id in Run(s, calls).actions
    ensures var t := Run(s, calls);
            && EventsOfAction(t, id) == {ActionKey(IntText(id))}
            && ActionKey(IntText(id)) in t.events
            && t.events[ActionKey(IntText(id))].runId == Some(t.actions[id].runId)
            && t.events[ActionKey(IntText(id))].contentId == Some(t.actions[id].contentId)
  {
    hide IntText, Run, PassesColumnChecks, PassesSourceChecks;
    RunPreserves(s, calls);
    var t := Run(s, calls);
    var key := ActionKey(IntText(id));
    var row := t.events[key];
    SourceChecksExact(row);
    KeyPrefix(row);
    StripPrefix("reconciliation-action:", IntText(id), IntText(row.actionId.value));
    IntTextInjective(id, row.actionId.value);
    forall k | k in EventsOfAction(t, id)
      ensures k == key
    {
      SourceChecksExact(t.events[k]);
    }
  }

  ghost function OperationEvents(s: State, id: int): (keys: set<string>) {
    set k | k in s.events && s.events[k].operationId == Some(id)
  }

  /** The keys that claims 0..generation of one operation can ever be recorded under. */
  ghost function KeySlots(id: int, generation: nat): (keys: set<string>) {
    {OperationKey(IntText(id), IntText(generation), "completed"),
     OperationKey(IntText(id), IntText(generation), "failed"),
     OperationKey(IntText(id), IntText(generation), "cancelled")}
    + (if generation == 0 then {} else KeySlots(id, generation - 1))
  }

  lemma {:induction false} SlotsContain(id: int, generation: nat, g: nat, status: string)
    requires g <= generation && status in TERMINAL
    ensures OperationKey(IntText(id), IntText(g), status) in KeySlots(id, generation)
  {
    hide OperationKey, IntText;
    if g < generation {
      SlotsContain(id, generation - 1, g, status);
    }
  }

  lemma {:induction false} SlotsCounted(id: int, generation: nat)
    ensures |KeySlots(id, generation)| <= 3 * (generation + 1)
  {
    hide OperationKey, IntText;
    var rest := if generation == 0 then {} else KeySlots(id, generation - 1);
    if generation > 0 { SlotsCounted(id, generation - 1); }
    var a := {OperationKey(IntText(id), IntText(generation), "completed")};
    var b := {OperationKey(IntText(id), IntText(generation), "failed")};
    var c := {OperationKey(IntText(id), IntText(generation), "cancelled")};
    assert KeySlots(id, generation) == a + b + c + rest;
    assert |a + b + c + rest| <= |a| + |b| + |c| + |rest|;
  }

  lemma SubsetCard<T>(a: set<T>, b: set<T>)
    requires a <= b
    ensures |a| <= |b|
  {
    assert b == a + (b - a);
  }

  /** However often it is retried, one operation never has more than three events per claim. */
  lemma EventsPerOperationBounded(s: State, calls: seq<Call>, id: int)
    requires Valid(s) && AllFollowApplication(calls) && id in Run(s, calls).jobs
    ensures |OperationEvents(Run(s, calls), id)| <= 3 * (Run(s, calls).jobs[id].claimGeneration + 1)
  {
    hide IntText, OperationKey, Run, KeySlots;
    RunPreserves(s, calls);
    var t := Run(s, calls);
    var g := t.jobs[id].claimGeneration;
    forall k | k in OperationEvents(t, id)
      ensures k in KeySlots(id, g)
    {
      var row := t.events[k];
      SourceChecksExact(row);
      SlotsContain(id, g, row.claimGeneration.value, row.terminalStatus.value);
    }
    SlotsCounted(id, g);
    SubsetCard(OperationEvents(t, id), KeySlots(id, g));
  }

  /** The identity collision is never raised on any run, by either capture function. */
  lemma {:induction false} CollisionUnreachable(s: State, calls: seq<Call>, c: Call)
    requires Valid(s) && AllFollowApplication(calls + [c])
    ensures Step(Run(s, calls), c).1 != Raised(IdentityCollision)
  {
    hide Run, Step, Valid;
    assert (calls + [c])[|calls|] == c;
    assert forall i :: 0 <= i < |calls| ==> (calls + [c])[i] == calls[i];
    RunPreserves(s, calls);
    StepPreserves(Run(s, calls), c);
  }

  /** Evidence is permanent: no run removes an event or action, or changes what it is about. */
  ghost predicate Extends(s: State, t: State) {
    && (forall k :: k in s.events ==> k in t.events && IdentityUnchanged(s.events[k], t.events[k]))
    && (forall a :: a in s.actions ==> a in t.actions && t.actions[a] == s.actions[a])
  }

  lemma StepExtends(s: State, c: Call)
    requires ActionsOk(s)
    ensures Extends(s, Step(s, c).0) && ActionsOk(Step(s, c).0)
  {
    hide AfterUpdateJob, AfterRecordAction, Storable;
    match c.statement
    case UpdateJob(id, _, a) => if id in s.jobs { UpdateExtends(s, id, a, c.now); }
    case Finish(id, _, status) => if id in s.jobs { UpdateExtends(s, id, FinishSet(status, c.now), c.now); }
    case RecordAction(runId, contentId) => ActionExtends(s, runId, contentId, c.now);
    case _ =>
  }

  lemma UpdateExtends(s: State, id: int, a: JobSet, now: int)
    requires id in s.jobs && ActionsOk(s)
    ensures Extends(s, AfterUpdateJob(s, id, a, now).0) && ActionsOk(AfterUpdateJob(s, id, a, now).0)
  {
    hide Capture, JobEvent;
    CaptureKeeps(s.events, JobEvent(id, BeforeUpdate(s.jobs[id], a), now));
  }

  lemma ActionExtends(s: State, runId: Uuid, contentId: int, now: int)
    requires ActionsOk(s)
    ensures Extends(s, AfterRecordAction(s, runId, contentId, now).0) && ActionsOk(AfterRecordAction(s, runId, contentId, now).0)
  {
    hide Capture, ActionEvent;
    CaptureKeeps(s.events, ActionEvent(s.nextActionId, Action(runId, contentId, now), now));
  }

  lemma {:induction false} EvidenceIsPermanent(s: State, calls: seq<Call>)
    requires ActionsOk(s)
    ensures Extends(s, Run(s, calls))
    decreases |calls|
  {
    hide Step, ActionsOk;
    if calls != [] {
      StepExtends(s, calls[0]);
      EvidenceIsPermanent(Step(s, calls[0]).0, calls[1..]);
    }
  }

  /** A new event is stamped with the job's completion time, or else with the transaction's. */
  lemma EventTime(s: State, id: int, a: JobSet, now: int)
    requires id in s.jobs && AfterUpdateJob(s, id, a, now).1 == Done(1)
    requires FiresCapture(s.jobs[id], BeforeUpdate(s.jobs[id], a), a)
    ensures var t := AfterUpdateJob(s, id, a, now).0; var job := t.jobs[id];
            var key := OperationKey(IntText(id), IntText(job.claimGeneration), job.status);
            && key in t.events
            && (key !in s.events ==>
                  t.events[key].occurredAt == if job.completedAt.Some? then job.completedAt.value else now)
  {
    hide Storable, OperationKey, IntText;
  }

  lemma EmptyIsValid()
    ensures Valid(EMPTY) && Captured(EMPTY, {})
  {
  }

  /** Were an application statement to assign claim_generation itself, a job could reach a terminal
      status by UPDATE and have no event: the discipline on statements is needed. */
  lemma AssigningGenerationBreaksCapture()
    ensures var calls := [Call(Enqueue, 0),
                          Call(UpdateJob(1, None, JobSet(Some("failed"), None, None, None, None)), 1),
                          Call(UpdateJob(1, None, JobSet(None, Some(7), None, None, None)), 2)];
            var t := Run(EMPTY, calls);
            && 1 in t.jobs && t.jobs[1].status in TERMINAL && 1 in Moved(EMPTY, calls)
            && OperationKey(IntText(1), IntText(t.jobs[1].claimGeneration), t.jobs[1].status) !in t.events
  {
    hide PassesSourceChecks, PassesColumnChecks;
    var a := Call(Enqueue, 0);
    var b := Call(UpdateJob(1, None, JobSet(Some("failed"), None, None, None, None)), 1);
    var c := Call(UpdateJob(1, None, JobSet(None, Some(7), None, None, None)), 2);
    var s1 := Step(EMPTY, a).0;
    var s2 := Step(s1, b).0;
    var s3 := Step(s2, c).0;
    assert [a, b, c][1..] == [b, c] && [b, c][1..] == [c] && [c][1..] == [];
    assert Run(EMPTY, [a, b, c]) == Run(s1, [b, c]) == Run(s2, [c]) == Run(s3, []) == s3;
    JobEventStorable(1, Job("failed", 0, 1, None, false), 1);
    assert s3.jobs[1] == Job("failed", 7, 1, None, false);
    assert 1 in MovedBy(s1, b);
    assert Moved(EMPTY, [a, b, c]) == MovedBy(EMPTY, a) + Moved(s1, [b, c]);
    var stored := OperationKey(IntText(1), IntText(0), "failed");
    assert s3.events.Keys == {stored};
    if OperationKey(IntText(1), IntText(7), "failed") == stored {
      OperationKeyInjective(1, 7, "failed", 1, 0, "failed");
    }
  }

  // -----------------------------------------------------------------------------------------
  // Fencing

  /** The call is an accepted transition of job `id` from queued to in_progress. */
  predicate IsClaim(s: State, c: Call, id: int) {
    && id in s.jobs && id in Step(s, c).0.jobs
    && s.jobs[id].status == "queued" && Step(s, c).0.jobs[id].status == "in_progress"
  }

  function ClaimCount(s: State, calls: seq<Call>, id: int): (n: nat)
    decreases |calls|
  {
    if calls == [] then 0
    else (if IsClaim(s, calls[0], id) then 1 else 0) + ClaimCount(Step(s, calls[0]).0, calls[1..], id)
  }

  lemma StepMovesGeneration(s: State, c: Call, id: int)
    requires FollowsApplication(c) && id in s.jobs && id < s.nextJobId
    ensures id in Step(s, c).0.jobs && id < Step(s, c).0.nextJobId
    ensures Step(s, c).0.jobs[id].claimGeneration
         == s.jobs[id].claimGeneration + if IsClaim(s, c, id) then 1 else 0
  {
    hide Storable, OperationKey, ActionKey, IntText;
  }

  /** The token of a job is its starting token plus the number of its claims. */
  lemma {:induction false} GenerationCountsClaims(s: State, calls: seq<Call>, id: int)
    requires AllFollowApplication(calls) && id in s.jobs && id < s.nextJobId
    ensures id in Run(s, calls).jobs
    ensures Run(s, calls).jobs[id].claimGeneration == s.jobs[id].claimGeneration + ClaimCount(s, calls, id)
    decreases |calls|
  {
    hide Step, IsClaim;
    if calls != [] {
      StepMovesGeneration(s, calls[0], id);
      GenerationCountsClaims(Step(s, calls[0]).0, calls[1..], id);
    }
  }

  /** The job a claim statement addresses. */
  function Target(c: Call): (id: Option<int>) {
    match c.statement
    case UpdateJob(id, _, _) => Some(id)
    case Finish(id, _, _) => Some(id)
    case _ => None
  }

  /** The claim tokens handed out over a run, in order. */
  function ClaimTokens(s: State, calls: seq<Call>): (tokens: seq<(int, int)>)
    decreases |calls|
  {
    if calls == [] then []
    else
      var t := Step(s, calls[0]).0;
      (if Target(calls[0]).Some? && IsClaim(s, calls[0], Target(calls[0]).value)
       then [(Target(calls[0]).value, t.jobs[Target(calls[0]).value].claimGeneration)] else [])
      + ClaimTokens(t, calls[1..])
  }

  lemma {:induction false} LaterTokensAreLarger(s: State, calls: seq<Call>, id: int)
    requires AllFollowApplication(calls) && id in s.jobs && id < s.nextJobId && JobsOk(s)
    ensures forall i :: 0 <= i < |ClaimTokens(s, calls)| && ClaimTokens(s, calls)[i].0 == id ==>
              ClaimTokens(s, calls)[i].1 > s.jobs[id].claimGeneration
    decreases |calls|
  {
    hide Step, IsClaim, JobChecks;
    if calls != [] {
      var t := Step(s, calls[0]).0;
      StepMovesGeneration(s, calls[0], id);
      StepKeepsJobsOk(s, calls[0]);
      LaterTokensAreLarger(t, calls[1..], id);
      var rest := ClaimTokens(t, calls[1..]);
      var all := ClaimTokens(s, calls);
      forall i | 0 <= i < |all| && all[i].0 == id
        ensures all[i].1 > s.jobs[id].claimGeneration
      {
        if |all| == |rest| { assert all[i] == rest[i]; }
        else if i > 0 { assert all[i] == rest[i - 1]; }
      }
    }
  }

  lemma StepKeepsJobsOk(s: State, c: Call)
    requires JobsOk(s) && FollowsApplication(c) && 0 < s.nextJobId
    ensures JobsOk(Step(s, c).0) && 0 < Step(s, c).0.nextJobId
  {
    hide Storable, OperationKey, ActionKey, IntText;
  }

  /** No two claims of a run share a token. */
  lemma {:induction false} ClaimTokensDistinct(s: State, calls: seq<Call>)
    requires AllFollowApplication(calls) && JobsOk(s) && 0 < s.nextJobId
    ensures forall i, j :: 0 <= i < j < |ClaimTokens(s, calls)| ==> ClaimTokens(s, calls)[i] != ClaimTokens(s, calls)[j]
    decreases |calls|
  {
    hide Step, IsClaim, JobChecks;
    if calls != [] {
      var t := Step(s, calls[0]).0;
      StepKeepsJobsOk(s, calls[0]);
      ClaimTokensDistinct(t, calls[1..]);
      var rest := ClaimTokens(t, calls[1..]);
      var all := ClaimTokens(s, calls);
      if |all| > |rest| {
        var id := Target(calls[0]).value;
        ClaimKeepsJob(s, calls[0], id);
        LaterTokensAreLarger(t, calls[1..], id);
        assert all == [all[0]] + rest;
      } else {
        assert all == rest;
      }
    }
  }

  lemma ClaimKeepsJob(s: State, c: Call, id: int)
    requires IsClaim(s, c, id)
    ensures id in s.jobs && id in Step(s, c).0.jobs
  {
  }

  /** A worker whose claim has been superseded can never again finish the job, whatever runs in
      between; nor does a content row stamped with its token ever match the job's claim. */
  lemma SupersededClaimIsInert(s: State, calls: seq<Call>, id: int, generation: int, status: string, now: int)
    requires AllFollowApplication(calls) && id in s.jobs && id < s.nextJobId
    requires generation < s.jobs[id].claimGeneration
    ensures Step(Run(s, calls), Call(Finish(id, generation, status), now)) == (Run(s, calls), Done(0))
    ensures id in Run(s, calls).jobs && Run(s, calls).jobs[id].claimGeneration != generation
  {
    hide Run, AfterUpdateJob;
    GenerationCountsClaims(s, calls, id);
  }

  /** Conversely the holder of the current claim always gets its result in, with its event. */
  lemma {:induction false} CurrentClaimFinishes(s: State, id: int, status: string, now: int)
    requires Valid(s) && id in s.jobs && s.jobs[id].status == "in_progress"
    requires status == "cancelled" || status in {"completed", "failed"}
    requires status == "cancelled" <==> s.jobs[id].cancelRequested
    ensures var g := s.jobs[id].claimGeneration;
            var (t, outcome) := Step(s, Call(Finish(id, g, status), now));
            && outcome == Done(1) && id in t.jobs
            && t.jobs[id] == s.jobs[id].(status := status, completedAt := Some(now))
            && OperationKey(IntText(id), IntText(g), status) in t.events
  {
    hide Storable, OperationKey, IntText;
    CaptureOfJobSucceeds(s, id, s.jobs[id].(status := status, completedAt := Some(now)), now);
  }

  // -----------------------------------------------------------------------------------------
  // At most one finish per claim, when in_progress is only ever entered by claiming

  predicate EntersProgressByClaiming(c: Call) {
    c.statement.UpdateJob? && c.statement.assign.status == Some("in_progress") ==>
      c.statement.whenStatus == Some("queued")
  }

  function FinishCount(s: State, calls: seq<Call>, id: int, generation: int): (n: nat)
    decreases |calls|
  {
    if calls == [] then 0
    else
      (if calls[0].statement.Finish? && calls[0].statement.id == id && calls[0].statement.generation == generation
          && Step(s, calls[0]).1 == Done(1) then 1 else 0)
      + FinishCount(Step(s, calls[0]).0, calls[1..], id, generation)
  }

  predicate Live(s: State, id: int, generation: int) {
    id in s.jobs && s.jobs[id].claimGeneration == generation && s.jobs[id].status == "in_progress"
  }

  predicate FinishesTerminally(c: Call) {
    c.statement.Finish? ==> c.statement.status in TERMINAL
  }

  ghost predicate Disciplined(calls: seq<Call>) {
    forall i :: 0 <= i < |calls| ==>
      FollowsApplication(calls[i]) && EntersProgressByClaiming(calls[i]) && FinishesTerminally(calls[i])
  }

  lemma DeadStaysDead(s: State, c: Call, id: int, generation: int)
    requires FollowsApplication(c) && EntersProgressByClaiming(c) && FinishesTerminally(c)
    requires id in s.jobs && id < s.nextJobId && s.jobs[id].claimGeneration >= generation
    ensures id in Step(s, c).0.jobs && id < Step(s, c).0.nextJobId
    ensures Step(s, c).0.jobs[id].claimGeneration >= generation
    ensures !Live(s, id, generation) ==> !Live(Step(s, c).0, id, generation)
    ensures c.statement.Finish? && c.statement.id == id && c.statement.generation == generation && Step(s, c).1 == Done(1)
        ==> Live(s, id, generation) && !Live(Step(s, c).0, id, generation)
  {
    hide Storable, OperationKey, ActionKey, IntText;
    StepMovesGeneration(s, c, id);
  }

  /** A token the job has already been given is good for one finish if it is live, and for none
      after that. */
  lemma {:induction false} KnownTokenFinishes(s: State, calls: seq<Call>, id: int, generation: int)
    requires Disciplined(calls) && id in s.jobs && id < s.nextJobId && s.jobs[id].claimGeneration >= generation
    ensures FinishCount(s, calls, id, generation) <= if Live(s, id, generation) then 1 else 0
    decreases |calls|
  {
    hide Step, Live;
    if calls != [] {
      DeadStaysDead(s, calls[0], id, generation);
      KnownTokenFinishes(Step(s, calls[0]).0, calls[1..], id, generation);
    }
  }

  lemma FutureTokenFinishesNothing(s: State, c: Call, id: int, generation: int)
    requires id !in s.jobs || s.jobs[id].claimGeneration < generation
    requires c.statement.Finish? && c.statement.id == id && c.statement.generation == generation
    ensures Step(s, c).1 == Done(0)
  {
  }

  /** Over any disciplined run, of all the finishing updates carrying one claim token at most one
      takes effect: the token of a stored job, one handed out during the run, or that of a job the
      run has yet to insert. */
  lemma {:induction false} AtMostOneFinishPerClaim(s: State, calls: seq<Call>, id: int, generation: int)
    requires Disciplined(calls) && JobsOk(s) && 0 < s.nextJobId
    ensures FinishCount(s, calls, id, generation) <= 1
    decreases |calls|
  {
    hide Step, Live, JobChecks, InColumnRange;
    if id in s.jobs && s.jobs[id].claimGeneration >= generation {
      KnownTokenFinishes(s, calls, id, generation);
    } else if calls != [] {
      if calls[0].statement.Finish? && calls[0].statement.id == id && calls[0].statement.generation == generation {
        FutureTokenFinishesNothing(s, calls[0], id, generation);
      }
      StepKeepsJobsOk(s, calls[0]);
      AtMostOneFinishPerClaim(Step(s, calls[0]).0, calls[1..], id, generation);
    }
  }

  // -----------------------------------------------------------------------------------------
  // Requeue and the claim bound

  /** Every accepted return to queued leaves protocol version 1, even when the same statement
      assigns another; and an accepted claim gets the next token even when the statement assigns one. */
  lemma TriggersOverrideAssignments(s: State, id: int, a: JobSet, now: int)
    requires id in s.jobs && a.status.Some? && AfterUpdateJob(s, id, a, now).1 == Done(1)
    ensures s.jobs[id].status != "queued" && a.status.value == "queued" ==>
              AfterUpdateJob(s, id, a, now).0.jobs[id].protocol == 1
    ensures s.jobs[id].status == "queued" && a.status.value == "in_progress" ==>
              AfterUpdateJob(s, id, a, now).0.jobs[id].claimGeneration == s.jobs[id].claimGeneration + 1
  {
    hide Storable, OperationKey, IntText;
  }

  /** A claim is refused exactly at the bound, so attempt_number = claim_generation + 1 of any
      stored job is a signed 64-bit integer. */
  lemma ClaimRefusedExactlyAtBound(s: State, id: int, protocol: Option<int>, now: int)
    requires Valid(s) && id in s.jobs && s.jobs[id].status == "queued"
    requires protocol.Some? ==> 1 <= protocol.value <= 32767
    ensures var claim := Call(UpdateJob(id, Some("queued"), JobSet(Some("in_progress"), None, protocol, None, None)), now);
            Step(s, claim).1 == if s.jobs[id].claimGeneration == CLAIM_GENERATION_MAX then Raised(CheckViolation) else Done(1)
    ensures s.jobs[id].claimGeneration + 1 <= INT64_MAX
  {
    hide Storable, OperationKey, IntText;
  }
}
