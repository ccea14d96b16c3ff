# Verified models of the agentic content analyzer's durable workflows

A Dafny model of the parts of the repository that other parts rely on blindly: the
database triggers and constraints behind the job queue, the contract compiler and its
validators, the conductor, and the migrations that are algorithms. `dafny verify
dfyconfig.toml` checks the whole project.

| module | models |
|---|---|
| Decimals, SqlLogic, JsonValues | decimal text, three-valued logic, JSON values |
| TerminalEvents | event rows, their check constraints, the key grammar, the downgrade |
| QueueDatabase, QueueRuns, QueueColumns, QueueTables | the queue tables as a state machine; what runs of statements guarantee; what each statement does to the columns; the tables as mutable state |
| ContentOwnership | the owner stamp on content rows |
| Tracestate, OperationContext, ContextEncoding | the emitted Python and TypeScript validators and the SQL constraints on what they admit; the admitted contexts as encodings of a record |
| SchemaCompiler, GeneratedClasses, FieldFlattening | JSON Schema to Python and TypeScript types; object components to classes and interfaces; allOf flattening against inheritance |
| Provenance, JobDeduplication | the restart-safe backfill; duplicate resolution before a unique index |
| Conductor | approval-gated delegation with retry |
| RevisionGraph, AudioStatistics, TracePolling | the head check, one-query statistics, the observability verifier |

The queue is modelled against an open environment: enqueueing, direct inserts of jobs in any
status, updates, claims, finishes and event inserts may be issued in any order. Each runs its
BEFORE triggers, constraints and AFTER trigger atomically, and a raise leaves the tables
unchanged. Row-level statements are taken one row at a time.

Beside the main results, each operation has a statement of what it does on its raw inputs and
columns (`QueueColumns`, `ContextEncoding`, and lemmas named `...Columns`, `...Meaning`, `...Exactly`),
which does not use the definitions the operation is built from.

Where the code does not do what its promise suggests, the model keeps the code and states
exactly when the promise holds:

- The generated Python model declares `schema_version` with its constant as default, so it
  accepts an envelope without it; TypeScript does not (`PythonAcceptsExactly`).
- The submission-context constraints before and after the authority keys have no context in
  common: the upgrade applies iff no context is stored, the downgrade clears them all
  (`ConstraintSwaps`).
- The identity constraint on event rows admits any key over a null column; only together with
  the shape constraint is it meaningful (`IdentityAloneAdmitsUnknown`, `SourceChecksExact`).
- The conductor appends a result before adding its cost and tokens. A cost that is not a number
  raises in between, and the tokens of that result are then missing from the FAILED total
  (`TokensConserved`). Its docstrings also speak of MAX_RETRIES attempts and of insights from
  0.7 confidence up; the code makes MAX_RETRIES + 1 attempts and adds speculative insights
  below 0.3. The model follows the code.
- Annotations are sound for `date-time`, `uri` and `uuid` strings only under format assertion
  (`FormatsMustBeAsserted`). A schema without a type is translated soundly iff it has no
  `additionalProperties` (`UntypedSoundExactly`), and one with schema-valued
  `additionalProperties` beside properties iff everything accepted for a property fits that
  schema's annotation too (`SiblingPropertiesSoundExactly`).
- A component that does not close `additionalProperties` still gets a class that forbids extra
  members, unless it allows them outright or is marked to ignore them; such a class refuses
  values the component accepts (`ClassSoundExactly`).
- `resolve` ignores properties beside `allOf`, and `_object_parts` keeps only the first base
  (`PropertiesBesideAllOfDiffer`, `SecondBaseDiffers`; `AgreementAtComponent` says exactly when
  a component is not affected).
- A job that is inserted in a terminal status, as the bootstrap does, gets no terminal event,
  because capture looks at updates only: a terminal job has its one event iff some UPDATE has
  changed its status (`InsertedTerminalHasNoEvent`, `TerminalJobHasExactlyOneEvent`).
- The laws of the queue need statements that leave `claim_generation`, and the events of jobs and
  actions, to the triggers, as every statement of the application does
  (`FollowsApplication`; `AssigningGenerationBreaksCapture`).
- `restart_continuity` repeats a conjunct of `retry_continuity` (`RestartCodeShadowsRetryCode`).
- The hierarchy check compares identifiers that may be missing, so a root and a worker
  observation that both lack one pass; with every root identified it means what it says
  (`HierarchyHoldsWithoutIdentifiers`, `HierarchyHoldsWithoutLinkExactly`,
  `HierarchyNamesIdentifiedRoot`).
- The deduplicating migration expects to find duplicates because the index is not there yet. Where
  the table was set up with the index, its key backfill can be refused
  (`KeylessTwinsClash`; `JobsTable.Upgrade` and `PreparedUniqueExactly` say exactly when).
- The provenance migration is guarded table by table, but reads the digests for the scripts and
  comments on them on PostgreSQL unguarded, and makes the ownership index unique: `Upgrade` says
  exactly from which states it goes through, and `UpgradableUnmoved` that interruptions do not
  change that.
- The head check looks at heads only: a cycle beside the history passes (`DetachedCyclePasses`;
  `SingleHeadCompleteExactly` says what a passing check is worth).
- The system-check downgrade is described as cascading to deliveries; the reference is
  restricted, and it is the explicit order of the deletes that makes it work.

## Model

| member | source | states |
|---|---|---|
| Decimals.RenderIsCanonical | scripts/generate_workflow_contracts.py:198-219 | decimal text of a natural number is canonical and parses back to it |
| Decimals.ParseThenRender | scripts/generate_workflow_contracts.py:198-219 | canonical text is the rendering of its value: parse and render are mutual inverses |
| Decimals.BoundedDecimalExact | scripts/generate_workflow_contracts.py:216-219 | isBoundedDecimal accepts exactly the renderings of the range's integers below 10^19, for any range |
| Decimals.NineteenCharactersSuffice | scripts/generate_workflow_contracts.py:216-232 | within signed 64 bits the nineteen-character limit loses no integer of the range |
| Decimals.SqlDecimalAgrees | alembic/versions/f3a91c5d7e28_admit_gx10_authority_in_submission_context.py:96-116 | SQL's pattern plus numeric range admits the same strings as isBoundedDecimal |
| Decimals.LexicographicOrder | openspec/contracts/content-workflows/openapi/v1.yaml:2528-2545 | on equal-length digit strings the numeric order is that of the first differing digit |
| Decimals.RangePatternAgrees | openspec/contracts/content-workflows/openapi/v1.yaml:2528-2545 | the contract's digit-by-digit range pattern admits the same strings as isBoundedDecimal |
| TerminalEvents.OperationKeyInjective | alembic/versions/91c7d2e4f8a6_add_workflow_alert_persistence.py:170-175 | the formatted operation key determines operation, claim generation and status |
| TerminalEvents.FailureKeyInjective | alembic/versions/91c7d2e4f8a6_add_workflow_alert_persistence.py:49-53 | the failure key determines run and content |
| TerminalEvents.FailurePatternOnFormula | alembic/versions/c3f1a8b6e40d_admit_system_check_terminal_events.py:66-70 | on a key built by the formula the regular expression tests UUID version/variant and a positive content id, nothing else |
| TerminalEvents.SourceChecksExact | alembic/versions/c3f1a8b6e40d_admit_system_check_terminal_events.py:50-105 | under the rule that a CHECK admits unknown, the three widened (narrow) constraints together admit exactly the rows whose key is their kind's formula over non-null identity columns |
| TerminalEvents.IdentityAloneAdmitsUnknown | alembic/versions/c3f1a8b6e40d_admit_system_check_terminal_events.py:58-62 | the identity constraint alone admits any key once an identity column is null |
| TerminalEvents.WideningIsAllOrNothing | alembic/versions/c3f1a8b6e40d_admit_system_check_terminal_events.py:14-27 | a system-check row is admitted iff all three constraints are widened |
| TerminalEvents.KeyDeterminesIdentity | alembic/versions/c3f1a8b6e40d_admit_system_check_terminal_events.py:58-80 | the four key grammars are disjoint and a key determines its row's identity (for actions: the action id) |
| TerminalEvents.AlertTables.DeleteSystemCheckDeliveries | alembic/versions/c3f1a8b6e40d_admit_system_check_terminal_events.py:138-141 | removes exactly the deliveries of system-check events |
| TerminalEvents.AlertTables.DeleteSystemCheckEvents | alembic/versions/c3f1a8b6e40d_admit_system_check_terminal_events.py:142 | succeeds iff no delivery still refers to a system-check event, and then removes exactly those events |
| TerminalEvents.AlertTables.Downgrade | alembic/versions/c3f1a8b6e40d_admit_system_check_terminal_events.py:129-146 | every step succeeds; only system-check rows and their deliveries go; what remains satisfies the narrow constraints and no delivery dangles |
| TerminalEvents.AlertTables.Upgrade | alembic/versions/c3f1a8b6e40d_admit_system_check_terminal_events.py:121-126 | every row the narrow constraints admit satisfies the widened ones |
| QueueDatabase.JobEventStorable | alembic/versions/91c7d2e4f8a6_add_workflow_alert_persistence.py:164-207 | the event of any terminal job fits every constraint and column width of the event table |
| QueueDatabase.CaptureOfJobSucceeds | alembic/versions/91c7d2e4f8a6_add_workflow_alert_persistence.py:187-197 | on a key conflict the stored row is the same event, so the upsert returns an id |
| QueueDatabase.CaptureOfActionInserts | alembic/versions/91c7d2e4f8a6_add_workflow_alert_persistence.py:210-245 | an action's event key is never taken before the action is inserted |
| QueueDatabase.UpdateJobPreserves | alembic/versions/8a5c3e7f9b21_add_content_reconciliation_ownership.py:135-159 | a job update with its triggers keeps every table invariant and never raises the identity collision |
| QueueDatabase.RecordActionPreserves | alembic/versions/91c7d2e4f8a6_add_workflow_alert_persistence.py:210-245 | the same for the insertion of a reconciliation action |
| QueueDatabase.StepPreserves | alembic/versions/91c7d2e4f8a6_add_workflow_alert_persistence.py:164-269 | every statement, direct inserts in any status included, keeps the invariants, and none raises the identity collision |
| QueueDatabase.RunPreserves | alembic/versions/91c7d2e4f8a6_add_workflow_alert_persistence.py:164-269 | the invariants hold after every run |
| QueueDatabase.StepCaptures | alembic/versions/91c7d2e4f8a6_add_workflow_alert_persistence.py:164-208 | each statement adds the jobs whose status it changes to those that have been moved: a moved job that is terminal has its event, and no other job has any |
| QueueRuns.TerminalJobHasExactlyOneEvent | alembic/versions/91c7d2e4f8a6_add_workflow_alert_persistence.py:164-208 | after any run a terminal job has exactly one event for its (id, claim, status), under its formatted key, if some UPDATE has changed its status, and none if it still is as it was inserted |
| QueueRuns.InsertedTerminalHasNoEvent | src/clients/operational_observability.py:1053-1082 | a job inserted as completed and then updated without its status, as the bootstrap does, is terminal and has no event |
| QueueRuns.ActionHasExactlyOneEvent | alembic/versions/91c7d2e4f8a6_add_workflow_alert_persistence.py:210-245 | every reconciliation action has exactly one event, with its run and content |
| QueueRuns.EventsPerOperationBounded | alembic/versions/91c7d2e4f8a6_add_workflow_alert_persistence.py:164-208 | one operation never has more than 3*(claim_generation+1) events |
| QueueRuns.CollisionUnreachable | alembic/versions/91c7d2e4f8a6_add_workflow_alert_persistence.py:194-197 | no statement after any run raises the identity collision |
| QueueRuns.EvidenceIsPermanent | alembic/versions/91c7d2e4f8a6_add_workflow_alert_persistence.py:247-269 | no run removes an event or action or changes what it is about |
| QueueRuns.EventTime | alembic/versions/91c7d2e4f8a6_add_workflow_alert_persistence.py:185 | a new event carries the job's completion time, else the transaction's |
| QueueRuns.AssigningGenerationBreaksCapture | alembic/versions/8a5c3e7f9b21_add_content_reconciliation_ownership.py:135-145 | a run in which an ordinary update assigns claim_generation leaves a job that an UPDATE made terminal without its event |
| QueueRuns.GenerationCountsClaims | alembic/versions/8a5c3e7f9b21_add_content_reconciliation_ownership.py:135-145 | a job's generation is its starting one plus the number of queued-to-in_progress transitions of the run |
| QueueRuns.LaterTokensAreLarger | alembic/versions/8a5c3e7f9b21_add_content_reconciliation_ownership.py:135-145 | every later claim token of a job exceeds its current generation |
| QueueRuns.ClaimTokensDistinct | alembic/versions/8a5c3e7f9b21_add_content_reconciliation_ownership.py:135-145 | no two claims of a run share a token |
| QueueRuns.SupersededClaimIsInert | src/queue/worker.py:361-430 | a worker holding an older token changes nothing, ever after; nor does a content stamp with that token match again |
| QueueRuns.CurrentClaimFinishes | src/queue/worker.py:361-430 | the holder of the current token of a job in progress always gets its terminal status stored, with its event, when it reports cancelled exactly on requested cancellation |
| QueueRuns.AtMostOneFinishPerClaim | src/queue/worker.py:361-430 | when in_progress is only updated to by claiming, at most one finishing update takes effect over a run for any job and any claim token, whether the job or the token exists yet or is created by the run |
| QueueRuns.TriggersOverrideAssignments | alembic/versions/8a5c3e7f9b21_add_content_reconciliation_ownership.py:135-159 | a return to queued leaves protocol version 1 and a claim gets the next token, whatever the statement assigns |
| QueueRuns.ClaimRefusedExactlyAtBound | alembic/versions/e4b7c9d2a610_add_operation_observability.py:134-135 | a claim is refused exactly at 2^63-2, so attempt_number = claim_generation + 1 fits signed 64 bits |
| QueueColumns.FinishExactly | src/queue/worker.py:361-430 | on the columns: when a terminal report lands, what it changes, and that otherwise it does nothing |
| QueueColumns.UpdateAcceptedExactly | alembic/versions/8a5c3e7f9b21_add_content_reconciliation_ownership.py:135-159 | an update of a stored job is refused iff its protocol is out of range, is below 1 and not replaced by a requeue, or the claim would pass 2^63-2 |
| QueueColumns.UpdatedColumns | alembic/versions/8a5c3e7f9b21_add_content_reconciliation_ownership.py:135-159 | every column after an accepted update: claims count one up, returns to queued reset the protocol, the rest is as assigned, and no other row moves |
| QueueColumns.UpdatedEvents | alembic/versions/91c7d2e4f8a6_add_workflow_alert_persistence.py:164-208 | an accepted update writes an event iff the status moved to a terminal one and that claim has none for it, and the event's columns |
| QueueColumns.InsertExactly | src/clients/operational_observability.py:309-319 | a direct insert is accepted within the column ranges, in any status, and writes no event |
| QueueColumns.RecordActionExactly | alembic/versions/91c7d2e4f8a6_add_workflow_alert_persistence.py:210-245 | an action is recorded iff its run and content have none yet and the content id is in range, with its event's columns |
| QueueColumns.UpdateEventExactly | alembic/versions/91c7d2e4f8a6_add_workflow_alert_persistence.py:247-269 | a stored event's update lands iff it moves nothing but classification, to a known one, and telemetry time |
| QueueColumns.StorableExactly | alembic/versions/c3f1a8b6e40d_admit_system_check_terminal_events.py:50-105 | the constraints, which admit unknown, and the column widths together admit exactly the rows of the four kinds, spelled out on the columns |
| QueueTables.Tables.Enqueue | alembic/versions/f1a2b3c4d5e6_add_pgqueuer_jobs_table.py:117-135 | inserts one fresh queued row at generation 0 and returns its id |
| QueueTables.Tables.InsertJob | src/clients/operational_observability.py:309-319 | a direct insert in any status: one fresh row and no event, or nothing at all |
| QueueTables.Tables.UpsertEvent | alembic/versions/91c7d2e4f8a6_add_workflow_alert_persistence.py:176-197 | succeeds iff the row is storable and its key is free or held by the same event; the event is then under its key, and no stored row is ever lost, changed or joined by a row of another key |
| QueueTables.Tables.UpdateJob | alembic/versions/8a5c3e7f9b21_add_content_reconciliation_ownership.py:135-159 | the whole new state: SET list, both BEFORE triggers, checks and capture, or nothing at all |
| QueueTables.Tables.Finish | src/queue/worker.py:361-430 | lands iff the job is in progress under that generation and is reported cancelled exactly when cancellation was requested; then only status and completion time change, and exactly one event of that claim and status is there; otherwise nothing changes |
| QueueTables.Tables.RecordAction | alembic/versions/8a5c3e7f9b21_add_content_reconciliation_ownership.py:65-115 | appends one action with its event, or nothing at all |
| QueueTables.Tables.UpdateEvent | alembic/versions/91c7d2e4f8a6_add_workflow_alert_persistence.py:247-269 | an event's identity columns never change; classification and telemetry may |
| ContentOwnership.OwnerCheckExact | alembic/versions/8a5c3e7f9b21_add_content_reconciliation_ownership.py:36-50 | the three-valued owner constraint admits exactly unowned rows and complete stamps whose row is in the stamp's phase or failed |
| ContentOwnership.StatusOnlyWriterAdmitted | alembic/versions/8a5c3e7f9b21_add_content_reconciliation_ownership.py:161-176 | a status-only update is admitted from every admitted row, and clears the stamp exactly when the status changes |
| ContentOwnership.StatusUpdateAdmittedExactly | alembic/versions/8a5c3e7f9b21_add_content_reconciliation_ownership.py:161-176 | which status updates are admitted, for any assigned columns |
| ContentOwnership.UpdatedColumns | alembic/versions/8a5c3e7f9b21_add_content_reconciliation_ownership.py:161-176 | every column after an admitted update: those assigned, or no stamp when the status changes under the same owner version |
| ContentOwnership.UpdateAdmittedExactly | alembic/versions/8a5c3e7f9b21_add_content_reconciliation_ownership.py:36-50 | any update is admitted iff the row it leaves is unowned or carries a whole positive stamp whose phase is the status or has failed |
| ContentOwnership.StampsAreFresh | alembic/versions/8a5c3e7f9b21_add_content_reconciliation_ownership.py:161-176 | a row that changed status and is still owned was stamped by that statement |
| ContentOwnership.OwnedRowsStayInPhase | alembic/versions/8a5c3e7f9b21_add_content_reconciliation_ownership.py:36-50 | over any run every owned row is in its owner's phase or failed |
| ContentOwnership.StampSurvivesOnlyItsStatus | alembic/versions/8a5c3e7f9b21_add_content_reconciliation_ownership.py:161-176 | without a new owner version a stamp never outlives its status, and a cleared one never returns |
| ContentOwnership.Contents.Update | alembic/versions/8a5c3e7f9b21_add_content_reconciliation_ownership.py:161-176 | one update with its trigger and constraint: the new row, or nothing |
| Tracestate.JoinOfSplit | scripts/generate_workflow_contracts.py:177 | joining undoes splitting, and no part contains the separator |
| Tracestate.SplitOfJoin | scripts/generate_workflow_contracts.py:177 | splitting undoes joining separator-free parts |
| Tracestate.IsValidTracestatePython | scripts/generate_workflow_contracts.py:174-192 | the Python loop decides acceptance of the code points |
| Tracestate.ValueCharsTypeScript | scripts/generate_workflow_contracts.py:251-254 | iterating by code point and looking at first units still rejects every value with a unit outside the value alphabet |
| Tracestate.IsValidTracestateTypeScript | scripts/generate_workflow_contracts.py:240-258 | the TypeScript loop decides the same acceptance of the code units |
| Tracestate.ValidatorsAgree | scripts/generate_workflow_contracts.py:174-258 | Python on a string and TypeScript on its UTF-16 form give the same answer |
| Tracestate.ParseOfRender | scripts/generate_workflow_contracts.py:174-192 | every well-formed member list is recovered from its rendering |
| Tracestate.RenderOfParse | scripts/generate_workflow_contracts.py:174-192 | every accepted string renders its parsed, well-formed member list |
| Tracestate.AcceptedExactly | scripts/generate_workflow_contracts.py:174-192 | accepted iff the rendering, in at most 512 characters, of one and only one list of 1-32 members with distinct well-formed keys |
| Tracestate.PatternImplied | openspec/contracts/content-workflows/openapi/v1.yaml:2634-2641 | the schema's own tracestate pattern refuses nothing the semantic validator accepts |
| Tracestate.SchemaPatternExactly | openspec/contracts/content-workflows/openapi/v1.yaml:2634-2641 | the pattern admits exactly the renderings of up to 32 members with well-formed keys and values that may have inner spaces |
| Tracestate.AlphabetsSpelled | scripts/generate_workflow_contracts.py:174-192 | the alphabets of keys and values, letter by letter |
| Tracestate.Utf16RoundTrip | scripts/generate_workflow_contracts.py:240-258 | the code units of a string of scalar values read back as that string |
| Tracestate.LooseSpelled | openspec/contracts/content-workflows/openapi/v1.yaml:2634-2641 | the pattern's values on the characters: printable, with spaces inside only |
| Tracestate.SurrogatesExactly | scripts/generate_workflow_contracts.py:250-254 | the surrogate pairs are the code units of the code points beyond the first plane |
| OperationContext.KeyTestsCompareSets | scripts/generate_workflow_contracts.py:266-269 | the key-count and membership tests compare key sets |
| OperationContext.AttemptTestAgrees | alembic/versions/f3a91c5d7e28_admit_gx10_authority_in_submission_context.py:111-116 | SQL's attempt test needs no upper bound because of the claim bound |
| OperationContext.SubmissionExactly | alembic/versions/f3a91c5d7e28_admit_gx10_authority_in_submission_context.py:68-125 | the constraint by itself, with the authority keys or without, admits exactly the objects with its key set, the validator's identity, claim, service and authority rules, and strings (or null) in the trace and resource fields, of at most 4096 octets |
| OperationContext.StoredExactly | alembic/versions/f3a91c5d7e28_admit_gx10_authority_in_submission_context.py:68-125 | before and after: no context, or one of exactly those keys under those rules |
| OperationContext.SqlAdmitsExactly | alembic/versions/f3a91c5d7e28_admit_gx10_authority_in_submission_context.py:68-125 | the new constraint plus the trace and resource rules admits exactly the contexts TypeScript accepts of at most 4096 octets |
| OperationContext.OldConstraintRefusesAll | alembic/versions/f3a91c5d7e28_admit_gx10_authority_in_submission_context.py:3-12 | every accepted context is refused by the constraint without the authority keys |
| OperationContext.ConstraintsDisjoint | alembic/versions/f3a91c5d7e28_admit_gx10_authority_in_submission_context.py:68-125 | no stored context satisfies both the old and the new constraint |
| OperationContext.ConstraintSwaps | alembic/versions/f3a91c5d7e28_admit_gx10_authority_in_submission_context.py:128-139 | the upgrade applies iff no context is stored yet; the downgrade always applies and clears every context |
| OperationContext.PyDecimalAgrees | scripts/generate_workflow_contracts.py:124-139 | a generated Python decimal alias admits the strings the TypeScript check admits |
| OperationContext.TracestateAgrees | scripts/generate_workflow_contracts.py:174-258 | Python's length bound, pattern and validator together agree with TypeScript's validator |
| OperationContext.PythonAcceptsExactly | scripts/generate_workflow_contracts.py:320-321 | the Python model accepts exactly what TypeScript accepts once a missing schema_version is filled in |
| OperationContext.OnlyPythonToleratesMissingVersion | scripts/generate_workflow_contracts.py:320-321 | dropping schema_version from an accepted context leaves one only Python accepts |
| OperationContext.ColumnChecksExactly | alembic/versions/e4b7c9d2a610_add_operation_observability.py:98-133 | what the identifier and traceparent constraints admit by themselves, nulls included |
| OperationContext.ColumnsAreTheProjection | alembic/versions/e4b7c9d2a610_add_operation_observability.py:98-133 | against an accepted context the identity constraint leaves exactly the context's own projection, which satisfies the other column constraints |
| ContextEncoding.AcceptedExactly | scripts/generate_workflow_contracts.py:260-297 | a context is accepted iff it is the rendering of a well-formed record: 20 keys, decimal numbers of the signed 64-bit ranges, lower-case hex, a traceparent of version 00 made of the trace and span ids, a rendered member list, bounded texts, a known stage |
| ContextEncoding.ReadOfRendering | scripts/generate_workflow_contracts.py:260-297 | the record is read back from its context, so no two records share one |
| ContextEncoding.TraceparentExactly | scripts/generate_workflow_contracts.py:204 | a traceparent is '00' and three dash-separated lower-case hex fields of 32, 16 and 2 characters |
| SchemaCompiler.TypeListStep | scripts/generate_workflow_contracts.py:78-84 | replacing a type list by one of its names yields the single-type rendering, where the recursion ends |
| SchemaCompiler.UnionMembers | scripts/generate_workflow_contracts.py:68-75 | a deduplicated, joined union has exactly the alternatives of its parts |
| SchemaCompiler.ValueKeywordsDecide | scripts/generate_workflow_contracts.py:51-65 | a reference alone decides what is rendered, then a constant, then an enumeration, and what each admits |
| SchemaCompiler.AnyOfIsUnion | scripts/generate_workflow_contracts.py:66-71 | the annotation of anyOf admits exactly what those of its parts admit, in both languages |
| SchemaCompiler.OneOfIsUnion | scripts/generate_workflow_contracts.py:72-76 | so does that of a oneOf without a type (or with an empty list of them) and without properties |
| SchemaCompiler.OneOfIgnoredBesideType | scripts/generate_workflow_contracts.py:72-76 | beside a type or properties a oneOf changes nothing |
| SchemaCompiler.TypeListIsUnion | scripts/generate_workflow_contracts.py:78-84 | a list of types admits exactly what the single types admit |
| SchemaCompiler.SingleTypeMeaning | scripts/generate_workflow_contracts.py:85-107 | what each type name admits in either language, formats, items and additional properties included |
| SchemaCompiler.PythonSound | scripts/generate_workflow_contracts.py:50-107 | every value a well-formed schema accepts inhabits its Python annotation (formats asserted) |
| SchemaCompiler.TypeScriptSound | scripts/generate_workflow_contracts.py:580-611 | every value a well-formed schema accepts inhabits its TypeScript type |
| SchemaCompiler.PythonPrecise | scripts/generate_workflow_contracts.py:50-107 | where the translation drops no keyword and the parts of a oneOf exclude each other, every inhabitant of the annotation is accepted by the schema |
| SchemaCompiler.PythonExact | scripts/generate_workflow_contracts.py:50-107 | on well-formed, precise schemas annotation and schema have the same values |
| SchemaCompiler.OneOfPreciseExactly | scripts/generate_workflow_contracts.py:72-76 | for a oneOf of precise parts the annotation admits nothing more than the schema iff no value is accepted by two parts |
| SchemaCompiler.FormatsMustBeAsserted | scripts/generate_workflow_contracts.py:87-93 | a formatted string translates soundly iff the format is asserted or vacuous |
| SchemaCompiler.UntypedSoundExactly | scripts/generate_workflow_contracts.py:103-107 | a schema without a type or union is translated soundly, in either language, iff it has no additionalProperties |
| SchemaCompiler.SiblingPropertiesSoundExactly | scripts/generate_workflow_contracts.py:103-106 | an object schema with schema-valued additionalProperties is translated soundly to Python iff that schema is, and every value accepted for a declared property inhabits its annotation |
| SchemaCompiler.SiblingPropertiesSoundExactlyTypeScript | scripts/generate_workflow_contracts.py:606-610 | the same for the TypeScript record |
| SchemaCompiler.SiblingPropertiesAreUnsound | scripts/generate_workflow_contracts.py:103-106 | an input on which that fails: a null property beside integer additional ones |
| SchemaCompiler.UnionErasure | scripts/generate_workflow_contracts.py:585-597 | unions of corresponding parts have corresponding alternatives whatever each side deduplicated |
| SchemaCompiler.ErasureExact | scripts/generate_workflow_contracts.py:50-107 | for every schema the TypeScript alternatives are exactly the Python ones under erasure |
| GeneratedClasses.ClassSoundExactly | scripts/generate_workflow_contracts.py:331-443 | with sound field annotations, a generated class admits every value its component accepts iff the component is an object type and its class is not a StrictModel standing for a schema that accepts undeclared members |
| GeneratedClasses.ClassMeaning | scripts/generate_workflow_contracts.py:426-443 | what a class admits, member by member: field types, nulls of optional fields without default, missing optional or constant members, and undeclared members iff extras are allowed or ignored |
| GeneratedClasses.ClassPrecise | scripts/generate_workflow_contracts.py:426-443 | with precise fields and the same policy on extras, a class admits beyond its component exactly a missing constant and a null for an optional field without default |
| GeneratedClasses.InterfaceMeaning | scripts/generate_workflow_contracts.py:656-671 | an interface asks for the required members it renders and for the types of those present |
| GeneratedClasses.InterfaceAdmits | scripts/generate_workflow_contracts.py:656-671 | a generated interface admits every value its component accepts |
| GeneratedClasses.ComponentsSound | scripts/generate_workflow_contracts.py:410-539 | where strict classes stand for closed schemas, what is generated for any component, alias or class, admits every value the component accepts, through any number of unfoldings of references, recursive ones included, in both languages |
| FieldFlattening.Resolve | scripts/generate_workflow_contracts.py:556-567 | resolve computes the flattened fields and required list |
| FieldFlattening.ObjectParts | scripts/generate_workflow_contracts.py:331-349 | base class, own properties and required set of a component |
| FieldFlattening.InlineRequiredMembers | scripts/generate_workflow_contracts.py:331-343 | the required names taken from inline parts are exactly theirs |
| FieldFlattening.InlinePropertiesMembers | scripts/generate_workflow_contracts.py:331-343 | of inline parts that state one property the last one's schema is taken |
| FieldFlattening.ExtendListsOnce | scripts/generate_workflow_contracts.py:566 | extending lists each required name once, after those already listed |
| FieldFlattening.RequiredListedOnce | scripts/generate_workflow_contracts.py:556-567 | resolve's required list has no repeats and exactly the names its references and parts require |
| FieldFlattening.FlattenedNames | scripts/generate_workflow_contracts.py:556-567 | resolve collects the names of every reference and every inline part |
| FieldFlattening.AgreementAtComponent | scripts/generate_workflow_contracts.py:331-349 | a component whose references agree agrees with its class iff each property beside allOf is also in a reference or inline part, and each field of a later reference also in the first one or the component |
| FieldFlattening.PropertiesBesideAllOfDiffer | scripts/generate_workflow_contracts.py:556-567 | a property beside allOf is in the class and not in the flattened fields |
| FieldFlattening.SecondBaseDiffers | scripts/generate_workflow_contracts.py:345-346 | the fields of a second base are flattened and not in the class |
| FieldFlattening.NamesAgree | scripts/generate_workflow_contracts.py:552-577 | on plain acyclic graphs flattened names equal those of the generated class chain |
| FieldFlattening.FieldsAgree | scripts/generate_workflow_contracts.py:552-577 | with bases first, so do the schemas attached to the names |
| Provenance.BackfillIdempotent | alembic/versions/d4e5f6a7b8c9_add_workflow_provenance.py:119-134 | backfilling a row twice is backfilling it once |
| Provenance.ScriptRowInvariant | alembic/versions/d4e5f6a7b8c9_add_workflow_provenance.py:204-221 | a script backfilled early ends where it would have against finished digests |
| Provenance.StepInvariant | alembic/versions/d4e5f6a7b8c9_add_workflow_provenance.py:224-362 | no single write, whenever it happens, changes where a complete run ends |
| Provenance.RestartSafe | alembic/versions/d4e5f6a7b8c9_add_workflow_provenance.py:224-388 | after any statements of any interrupted runs, refused or not and in any row order, a complete run ends at the clean run's schema and data |
| Provenance.UpgradableUnmoved | alembic/versions/d4e5f6a7b8c9_add_workflow_provenance.py:224-388 | no interrupted run leads into or out of the states from which the upgrade goes through |
| Provenance.ExistingProvenanceKept | alembic/versions/d4e5f6a7b8c9_add_workflow_provenance.py:101-221 | at any point of any run no row of the three tables is lost, and fingerprints, non-empty policies and id lists already set are unchanged |
| Provenance.ScriptsInheritFingerprints | alembic/versions/d4e5f6a7b8c9_add_workflow_provenance.py:173-221 | every script whose digest exists ends with the fingerprint it had, or else with its digest's final one |
| Provenance.ScriptsEndWith | alembic/versions/d4e5f6a7b8c9_add_workflow_provenance.py:204-221 | every script ends with the id lists it had; in place of a missing available list its newsletter ids, and of a missing cited list none |
| Provenance.SelectionsEndWith | alembic/versions/d4e5f6a7b8c9_add_workflow_provenance.py:101-171 | every digest and analysis ends with the summary ids, policy and fingerprint it had, or else none, the legacy policy, and the fingerprint of what is then stored |
| Provenance.ColumnsEndTightened | alembic/versions/d4e5f6a7b8c9_add_workflow_provenance.py:248-362 | the columns end not null with the migration's default unless they already had both |
| Provenance.OwnershipEnds | alembic/versions/d4e5f6a7b8c9_add_workflow_provenance.py:73-83 | ownership columns end indexed, with the ids they had or null, and with exactly the comments of the tables present on PostgreSQL |
| Provenance.UpgradableExactly | alembic/versions/d4e5f6a7b8c9_add_workflow_provenance.py:224-389 | the states that can be upgraded, on the rows |
| Provenance.StatementNeeds | alembic/versions/d4e5f6a7b8c9_add_workflow_provenance.py:224-389 | what each statement of the migration needs of the database to be admitted |
| Provenance.FingerprintRecomputable | alembic/versions/d4e5f6a7b8c9_add_workflow_provenance.py:45-55 | a fingerprint the migration wrote is that of the policy, content ids and summary ids stored beside it |
| Provenance.ScriptsFirstStayBare | alembic/versions/d4e5f6a7b8c9_add_workflow_provenance.py:212 | a script reached before its digest has a fingerprint gets none |
| Provenance.Migration.EnsureOwnership | alembic/versions/d4e5f6a7b8c9_add_workflow_provenance.py:73-83 | adds what is missing of the ownership column and its unique index; fails iff the index is missing and an operation id is repeated |
| Provenance.Migration.EnsureAllOwnership | alembic/versions/d4e5f6a7b8c9_add_workflow_provenance.py:233-235 | does so for every operation-owned table present, and goes through iff none of them fails |
| Provenance.Migration.AddSelectionColumns | alembic/versions/d4e5f6a7b8c9_add_workflow_provenance.py:237-247 | adds exactly the absent columns |
| Provenance.Migration.BackfillSelections | alembic/versions/d4e5f6a7b8c9_add_workflow_provenance.py:101-171 | the row loop backfills every row, each once, with no statement refused |
| Provenance.Migration.HardenSelection | alembic/versions/d4e5f6a7b8c9_add_workflow_provenance.py:290-316 | tightens columns and indexes with no statement refused |
| Provenance.Migration.UpgradeSelection | alembic/versions/d4e5f6a7b8c9_add_workflow_provenance.py:278-316 | one selection table reaches its upgraded form |
| Provenance.Migration.BackfillScripts | alembic/versions/d4e5f6a7b8c9_add_workflow_provenance.py:173-221 | the script loop backfills every row against the digests' fingerprints |
| Provenance.Migration.UpgradeScripts | alembic/versions/d4e5f6a7b8c9_add_workflow_provenance.py:318-362 | the script table reaches its upgraded form iff there is a digests table to read |
| Provenance.Migration.CommentTable | alembic/versions/d4e5f6a7b8c9_add_workflow_provenance.py:364-389 | comments the three columns of a table, or is refused when there is no such table |
| Provenance.Migration.Upgrade | alembic/versions/d4e5f6a7b8c9_add_workflow_provenance.py:224-389 | goes through iff no operation id is repeated in a table still to be indexed and there is a digests table for the script backfill and, on PostgreSQL, the comments; it then reaches the upgraded schema and data |
| Conductor.ValidatedKeepsUsable | src/agents/conductor.py:352-363 | the validated plan has exactly the reply's usable items |
| Conductor.FallbackExactly | src/agents/conductor.py:343-370 | the fallback is taken only for want of a usable item, and the plan is otherwise the usable items |
| Conductor.ValidatedConcat | src/agents/conductor.py:352-363 | the plan keeps the order and number of the usable items |
| Conductor.PlansOfOne | src/agents/conductor.py:352-370 | each usable item becomes its own sub-task; without one the task goes to the specialist of its type, else to research |
| Conductor.Conductor.PlanTask | src/agents/conductor.py:304-370 | the loop computes the plan, which is never empty |
| Conductor.Conductor.DelegateWithRetry | src/agents/conductor.py:397-459 | returns the first success or the last failure, and executes once per attempt up to it |
| Conductor.DelegatedMeaning | src/agents/conductor.py:397-459 | an unregistered specialist fails empty-handed; any other answers with its first success within three attempts, or with the last attempt |
| Conductor.PartialExactly | src/agents/conductor.py:521-522 | `partial` is set iff some result failed |
| Conductor.FindingsAreTheResults | src/agents/conductor.py:479-480 | the merged findings are those of the results, none lost or invented |
| Conductor.ResultsConcat | src/agents/conductor.py:461-523 | content, findings, successes, confidence, cost and tokens of a list of results are those of its parts put together |
| Conductor.ResultsOfOne | src/agents/conductor.py:461-523 | and what each of them is for one result |
| Conductor.InsightsConcat | src/agents/conductor.py:486-508 | findings are judged one by one, in order |
| Conductor.InsightsOfOne | src/agents/conductor.py:486-508 | an insight from 0.7 up, a speculative one below 0.3, a missing confidence counting as 0 |
| Conductor.SynthesisParts | src/agents/conductor.py:509-523 | a synthesis is made of these iff every confidence is absent or a number; its confidence is the mean over the results |
| Conductor.Conductor.SynthesizeResults | src/agents/conductor.py:461-523 | the loops compute the synthesis, or fail when a confidence cannot be compared |
| Conductor.Conductor.ExtractInsights | src/agents/conductor.py:486-508 | insights at 0.7 and above, speculative ones below 0.3, in order |
| Conductor.Conductor.DelegatePlan | src/agents/conductor.py:157-215 | the loop stops where the gate, the setup or the arithmetic stops it, with the log of gates and executions and the totals it then has |
| Conductor.Conductor.ExecuteTask | src/agents/conductor.py:98-287 | the result and the log of a whole task, at every exit |
| Conductor.NothingRunsUnapproved | src/agents/conductor.py:164-210 | each execution for sub-task i is preceded in the log by the approvals of gates 0..i and, from the second attempt on, directly by a failed attempt before it; there are at most MAX_RETRIES+1 |
| Conductor.LogHasNoRepeats | src/agents/conductor.py:157-215 | no gate is consulted twice and no attempt executed twice |
| Conductor.GateLogged | src/agents/conductor.py:164-187 | the log holds each gate's own answer for exactly the sub-tasks before which everything ran clean |
| Conductor.ExecutionLogged | src/agents/conductor.py:188-210 | a specialist is executed for exactly the sub-tasks so reached whose gate approves and whose setup does not raise, once per attempt up to its first success or the third |
| Conductor.CostConserved | src/agents/conductor.py:213-214 | at all three exits the cost total is the sum over the delegated results |
| Conductor.TokensConserved | src/agents/conductor.py:213-215 | so is the token total, except exactly when the last result's cost raised before its non-zero tokens were counted |
| Conductor.TokensCanBeLost | src/agents/conductor.py:210-215 | a run that loses tokens |
| Conductor.CompletedExactly | src/agents/conductor.py:157-253 | a task completes iff every gate approves, nothing raises and every entry is numeric |
| Conductor.BlockedExactly | src/agents/conductor.py:164-187 | a task is blocked on x iff the gate of some sub-task for x refuses and everything before it ran clean; it then carries no synthesis |
| Conductor.FailedExactly | src/agents/conductor.py:255-287 | it fails in the remaining cases, naming no gate, and a synthesis it then carries is marked partial |
| Conductor.FailedSynthesis | src/agents/conductor.py:255-287 | that synthesis is the one of what was delegated before the stop, present iff there are results and their confidences compare |
| Conductor.CompletedCoversPlan | src/agents/conductor.py:217-253 | COMPLETED means one result per plan item in plan order, partial iff one failed |
| JobDeduplication.FirstExactly | alembic/versions/6b7c8d9e0f1a_refactor_pgqueuer_reliability.py:69-78 | row number 1 means that no row of the group precedes |
| JobDeduplication.GroupHasFirst | alembic/versions/6b7c8d9e0f1a_refactor_pgqueuer_reliability.py:69-78 | every group has a first row, no later than any member |
| JobDeduplication.BackfilledKeysGroupByContent | alembic/versions/6b7c8d9e0f1a_refactor_pgqueuer_reliability.py:54-62 | backfilled keys group the jobs of an entrypoint by content id |
| JobDeduplication.SurvivorIsLeast | alembic/versions/6b7c8d9e0f1a_refactor_pgqueuer_reliability.py:67-88 | a job stays active iff it is the least of its group by (created_at, id) |
| JobDeduplication.EarliestSurvives | alembic/versions/6b7c8d9e0f1a_refactor_pgqueuer_reliability.py:64-88 | of the active jobs of one entrypoint and key the one created first stays active, the smaller id breaking ties, and every other ends failed |
| JobDeduplication.ResolvedColumns | alembic/versions/6b7c8d9e0f1a_refactor_pgqueuer_reliability.py:79-88 | every column of every row after the resolution |
| JobDeduplication.PreparedColumns | alembic/versions/6b7c8d9e0f1a_refactor_pgqueuer_reliability.py:46-62 | every column of every row after the two backfills |
| JobDeduplication.IndexOnColumns | src/queue/setup.py:667-669 | what the unique partial index demands, on the columns |
| JobDeduplication.IndexAlwaysCreatable | alembic/versions/6b7c8d9e0f1a_refactor_pgqueuer_reliability.py:95-104 | after the update the unique partial index can be created, on any table |
| JobDeduplication.EveryGroupSurvives | alembic/versions/6b7c8d9e0f1a_refactor_pgqueuer_reliability.py:67-88 | every group that had an active job keeps one |
| JobDeduplication.OnlyDuplicatesChange | alembic/versions/6b7c8d9e0f1a_refactor_pgqueuer_reliability.py:79-86 | no row is lost; a changed row was a keyed active duplicate and only its status, error and times move |
| JobDeduplication.NothingToRetire | alembic/versions/6b7c8d9e0f1a_refactor_pgqueuer_reliability.py:67-88 | rows that already satisfy the index are left as they are |
| JobDeduplication.PreparedUniqueExactly | alembic/versions/6b7c8d9e0f1a_refactor_pgqueuer_reliability.py:54-62 | from indexed rows the backfilled keys stay unique iff no active keyless job is about to get the key of another active job |
| JobDeduplication.KeylessTwinsClash | src/queue/setup.py:667-669 | two active keyless jobs of one content satisfy the index and clash under the backfill |
| JobDeduplication.JobsTable.Deduplicate | alembic/versions/6b7c8d9e0f1a_refactor_pgqueuer_reliability.py:67-88 | performs the ranked update, and the index, if there is one, admits it |
| JobDeduplication.JobsTable.Upgrade | alembic/versions/6b7c8d9e0f1a_refactor_pgqueuer_reliability.py:46-104 | always goes through without the index; with the index already there iff the backfilled keys are unique, and then retires no job; a failure leaves the table as it was |
| RevisionGraph.GraphMeaning | scripts/check_alembic_heads.py:63-69 | a revision is in the graph iff some file states it, with all the down revisions of the last file that does |
| RevisionGraph.HeadOnFiles | scripts/check_alembic_heads.py:71-76 | a head is a revision that no revision's last file names among its down revisions |
| RevisionGraph.FindHeads | scripts/check_alembic_heads.py:59-76 | the loops list the revisions no revision points at, each once, in the order of the files |
| RevisionGraph.CheckSingleHead | scripts/check_alembic_heads.py:86-93 | the check passes iff the graph has exactly one head, and names it |
| RevisionGraph.ClimbToSource | scripts/check_alembic_heads.py:71-76 | climbing from any revision of any graph ends at a head, or at a revision on a cycle, that reaches it |
| RevisionGraph.SingleHeadCompleteExactly | scripts/check_alembic_heads.py:86-93 | when the check passes, its head reaches every revision iff it reaches every revision that lies on a cycle |
| RevisionGraph.DetachedCyclePasses | scripts/check_alembic_heads.py:86-93 | a cycle beside the history passes the check and is not reached |
| RevisionGraph.HeadsReachEverything | scripts/check_alembic_heads.py:86-93 | a non-empty acyclic graph has a head, and a single head reaches every revision |
| RevisionGraph.CycleHasNoHead | scripts/check_alembic_heads.py:86-93 | a cycle alone has no head, so the check fails |
| RevisionGraph.MergeLeavesOneHead | scripts/check_alembic_heads.py:92 | merging all heads leaves exactly one head and no cycle |
| AudioStatistics.Fold | src/api/audio_digest_routes.py:338-361 | the loop's figures are sums over the groups |
| AudioStatistics.Tabulate | src/api/audio_digest_routes.py:348-352 | adds a group's count under its name, and ignores null and empty names |
| AudioStatistics.GroupedEqualsDirect | src/api/audio_digest_routes.py:326-336 | for every selection of keys, adding grouped counts and sums equals counting and summing the rows |
| AudioStatistics.NamesAreTheRows | src/api/audio_digest_routes.py:348-352 | the tabulated names are exactly those of the rows |
| AudioStatistics.StatusesPartition | src/api/audio_digest_routes.py:357-361 | the four statuses partition the rows |
| AudioStatistics.CountIsCardinality | src/api/audio_digest_routes.py:326-336 | counting is the number of rows selected |
| AudioStatistics.DurationConcat | src/api/audio_digest_routes.py:357-361 | durations add up over the rows |
| AudioStatistics.DirectFigures | src/api/audio_digest_routes.py:317-371 | the figures, as numbers of rows with a given status, voice or provider |
| AudioStatistics.GetStatistics | src/api/audio_digest_routes.py:317-371 | every figure equals the direct query's, and is the number of rows of a status, or under a non-empty voice or provider name; total = generating + completed + failed |
| TracePolling.SortedSetMeaning | scripts/gx10/verify_observability.py:326 | sorted(set(xs)) is the increasing list of the elements of xs |
| TracePolling.SortedSetTest | scripts/gx10/verify_observability.py:326 | xs == sorted(set(xs)) iff xs strictly increases |
| TracePolling.CodesNameTheFailures | scripts/gx10/verify_observability.py:416-419 | the failure codes are exactly those of the failed checks |
| TracePolling.ReadyExactly | scripts/gx10/verify_observability.py:403-431 | ready iff all eleven checks pass |
| TracePolling.ReadyMeans | scripts/gx10/verify_observability.py:300-431 | ready iff the header, both services' logs, retried attempt rows, a traced generation, absent canaries and export health are all there, spelled out on the evidence |
| TracePolling.CodesMean | scripts/gx10/verify_observability.py:403-419 | which failure code stands for which check |
| TracePolling.RetryExactly | scripts/gx10/verify_observability.py:380-393 | the retry check on the matching rows alone |
| TracePolling.PairwiseIsIncreasing | scripts/gx10/verify_observability.py:387-390 | comparing neighbours is comparing all pairs |
| TracePolling.RetryGivenRows | scripts/gx10/verify_observability.py:322-393 | once the row check passes the pairwise test is implied |
| TracePolling.RestartCodeShadowsRetryCode | scripts/gx10/verify_observability.py:387-394 | the retry and restart failure codes always come together |
| TracePolling.HierarchyNamesIdentifiedRoot | scripts/gx10/verify_observability.py:359-379 | when every root is identified, a passing check means that some worker observation names an identified root by its id |
| TracePolling.HierarchyHoldsWithoutLinkExactly | scripts/gx10/verify_observability.py:359-379 | a passing check found no link by identifier iff every worker child it found has no parent id, and then some root has no id |
| TracePolling.HierarchyHoldsWithoutIdentifiers | scripts/gx10/verify_observability.py:359-379 | the input on which that happens: a root and a worker observation without identifiers |
| TracePolling.PollTraceArrival | scripts/gx10/verify_observability.py:434-460 | stops after at most ceil(timeout/interval)+1 collections; ready is the last snapshot's own verdict, anything else timed out |

## Left out

- Table columns that no trigger or modelled constraint reads (payload, priority, retry counts, heartbeats of queue jobs) and job deletion.
- The unique partial index on active jobs as a reason to refuse a queue update: the model admits those updates, so its runs include the real ones.
- The ids a sequence skips when an insert is refused.
- Multi-row statements as one atomic unit; a claim of a batch is a sequence of single claims.
- Deletion of old events by retention: the capture results assume none.
- The remaining audit columns of reconciliation actions and the summary-owner constraint: enumerations with nothing to relate.
- octet_length(submission_context::text) is a parameter of the constraint: PostgreSQL's text form of JSONB is not modelled, nor its refusal of U+0000.
- Strings of the operation context are sequences of Unicode scalar values; only the tracestate model covers lone surrogates.
- SHA-256 is an arbitrary function of what is serialized, assumed only never to yield the empty string.
- Floating-point cost, confidence and duration are reals.
- SchemaCompiler.PythonSound: covers the keywords that `_python_type` reads together with properties; other assertion keywords only shrink what a schema accepts. Field-name special cases for operation_type and status, and boolean schemas are not covered.
- GeneratedClasses.ComponentsSound: is about object components with properties of their own; classes assembled with allOf are names with one meaning for schemas and types. Numeric and length constraints, which class and schema share, Pydantic's coercions, discriminators, and the cross-field validators added to the vault, context and attempt classes are not modelled.
- SchemaCompiler.ErasureExact: alternatives are compared as structures, so unambiguous rendering of names and literals as text is taken for granted.
- FieldFlattening.NamesAgree: is about acyclic graphs whose references exist; the x-internal filter and the three fixed base classes carry no fields and are not modelled.
- Provenance.Migration.Upgrade: the guarded comment on pgqueuer_jobs.payload and the downgrade are left out.
- Conductor.Conductor.ExecuteTask: persona, memory, telemetry, backoff sleeps and the model's planning text are outside; their observable effects are the fields of World and PlannerReply. Cancellation of the coroutine is not modelled.
- RevisionGraph.FindHeads: parsing of migration files is an input.
- TracePolling.PollTraceArrival: the clock and the collector are functions of the step number; redaction, timestamps and report size limits are left out.
- HTTP routes, authentication, rate limiting, the browser extension, command-line scripts, alert delivery leases and Obsidian claims: input/output around code that is not part of this model.
