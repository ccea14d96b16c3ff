/** The operation context envelope, as admitted by the emitted TypeScript validator, by the emitted
    Python model, and by the check constraints of the column that stores it. */
module OperationContext {
  import opened Decimals
  import opened SqlLogic
  import opened JsonValues
  import Tracestate

  type Context = map<string, Json>

  const ENVELOPE_KEYS: set<string> := {
    "schema_version", "operation_id", "root_operation_id", "parent_operation_id", "traceparent",
    "tracestate", "trace_id", "span_id", "claim_generation", "attempt_number", "entrypoint",
    "service_name", "service_instance_id", "environment", "release_revision", "stage",
    "resource_kind", "resource_key"}

  const AUTHORITY_KEYS: set<string> := {"authority_fingerprint", "ownership_epoch"}

  const CONTEXT_KEYS: set<string> := ENVELOPE_KEYS + AUTHORITY_KEYS

  const OPERATION_STAGES: set<string> := {
    "submit", "queue_wait", "claim", "fetch", "discover", "metadata", "transcript", "extract",
    "parse", "filter", "deduplicate", "model", "fallback", "persist", "index", "graph", "deliver",
    "backup", "restore", "alert", "cleanup", "flush"}

  // -----------------------------------------------------------------------------------------
  // Shared text forms

  predicate IsHexText(s: string, length: nat) {
    |s| == length && forall i :: 0 <= i < length ==> IsDigit(s[i]) || 'a' <= s[i] <= 'f'
  }

  predicate AllZero(s: string) {
    forall i :: 0 <= i < |s| ==> s[i] == '0'
  }

  predicate IsTraceparent(s: string) {
    && |s| == 55
    && s[..3] == "00-" && IsHexText(s[3..35], 32) && s[35] == '-'
    && IsHexText(s[36..52], 16) && s[52] == '-' && IsHexText(s[53..], 2)
  }

  function Codes(s: string): (t: Tracestate.Text) {
    seq(|s|, i requires 0 <= i < |s| => s[i] as nat)
  }

  // -----------------------------------------------------------------------------------------
  // TypeScript: parseOperationContextEnvelope

  predicate TsString(c: Context, k: string) {
    k in c && c[k].JString?
  }

  predicate TsBoundedString(c: Context, k: string, low: nat, high: nat) {
    TsString(c, k) && low <= |c[k].s| <= high
  }

  predicate TsDecimal(c: Context, k: string, low: nat, high: nat) {
    TsString(c, k) && IsBoundedDecimal(c[k].s, low, high)
  }

  predicate TsNullOr(c: Context, k: string, ok: bool) {
    k in c && (c[k].JNull? || ok)
  }

  /** Object keys are distinct, so the two tests on them compare sets. */
  predicate TsKeysMatch(c: Context) {
    |c.Keys| == |CONTEXT_KEYS| && forall k | k in c :: k in CONTEXT_KEYS
  }

  predicate TsIdentity(c: Context) {
    && "schema_version" in c && c["schema_version"] == JNumber(1.0)
    && TsDecimal(c, "operation_id", 1, INT64_MAX)
    && TsDecimal(c, "root_operation_id", 1, INT64_MAX)
    && TsNullOr(c, "parent_operation_id", TsDecimal(c, "parent_operation_id", 1, INT64_MAX))
  }

  predicate TsTrace(c: Context) {
    && TsString(c, "trace_id") && IsHexText(c["trace_id"].s, 32) && !AllZero(c["trace_id"].s)
    && TsString(c, "span_id") && IsHexText(c["span_id"].s, 16) && !AllZero(c["span_id"].s)
    && TsString(c, "traceparent") && IsTraceparent(c["traceparent"].s)
    && c["traceparent"].s[3..35] == c["trace_id"].s
    && c["traceparent"].s[36..52] == c["span_id"].s
    && TsNullOr(c, "tracestate",
                TsString(c, "tracestate") && Tracestate.Accepts(Tracestate.Utf16(Codes(c["tracestate"].s))))
  }

  predicate TsClaim(c: Context) {
    && TsDecimal(c, "claim_generation", 0, CLAIM_GENERATION_MAX)
    && TsNullOr(c, "attempt_number",
                && TsDecimal(c, "attempt_number", 1, INT64_MAX)
                && Value(c["attempt_number"].s) == Value(c["claim_generation"].s) + 1)
  }

  predicate TsService(c: Context) {
    && TsBoundedString(c, "entrypoint", 1, 160)
    && TsBoundedString(c, "service_name", 1, 100)
    && TsBoundedString(c, "service_instance_id", 1, 128)
    && TsBoundedString(c, "environment", 1, 32)
    && TsBoundedString(c, "release_revision", 1, 64)
  }

  predicate TsAuthority(c: Context) {
    && TsNullOr(c, "authority_fingerprint",
                TsString(c, "authority_fingerprint") && IsHexText(c["authority_fingerprint"].s, 64))
    && TsNullOr(c, "ownership_epoch", TsDecimal(c, "ownership_epoch", 0, INT64_MAX))
  }

  predicate TsResource(c: Context) {
    && TsNullOr(c, "stage", TsString(c, "stage") && c["stage"].s in OPERATION_STAGES)
    && TsNullOr(c, "resource_kind", TsBoundedString(c, "resource_kind", 0, 64))
    && TsNullOr(c, "resource_key", TsBoundedString(c, "resource_key", 0, 128))
  }

  predicate TypeScriptAccepts(v: Json) {
    && v.JObject?
    && TsKeysMatch(v.members) && TsIdentity(v.members) && TsTrace(v.members) && TsClaim(v.members)
    && TsService(v.members) && TsAuthority(v.members) && TsResource(v.members)
  }

  // -----------------------------------------------------------------------------------------
  // Python: OperationContextEnvelope.model_validate

  predicate PyString(c: Context, k: string, low: nat, high: nat) {
    k in c && c[k].JString? && low <= |c[k].s| <= high
  }

  /** The generated scalar aliases check maxLength 19 and the contract's range pattern. */
  predicate PyDecimal(c: Context, k: string, zero: bool, maximum: nat) {
    PyString(c, k, 0, 19) && RangePattern(c[k].s, zero, Render(maximum))
  }

  predicate PyOptional(c: Context, k: string, ok: bool) {
    k in c && (c[k] == JNull || ok)
  }

  /** `value.strip("0")` is empty exactly on all-zero text. */
  predicate PyIdentifier(c: Context, k: string, length: nat) {
    k in c && c[k].JString? && IsHexText(c[k].s, length) && !AllZero(c[k].s)
  }

  /** extra="forbid"; every field is required except schema_version, whose generated declaration
      has the constant as its default. */
  predicate PyFieldsPresent(c: Context) {
    c.Keys <= CONTEXT_KEYS && CONTEXT_KEYS - {"schema_version"} <= c.Keys
  }

  predicate PyIdentity(c: Context) {
    && PyDecimal(c, "operation_id", false, INT64_MAX)
    && PyDecimal(c, "root_operation_id", false, INT64_MAX)
    && PyOptional(c, "parent_operation_id", PyDecimal(c, "parent_operation_id", false, INT64_MAX))
  }

  predicate PyTrace(c: Context) {
    && PyString(c, "traceparent", 55, 55) && IsTraceparent(c["traceparent"].s)
    && PyOptional(c, "tracestate",
                  PyString(c, "tracestate", 0, 512) && Tracestate.SchemaPattern(Codes(c["tracestate"].s)))
    && PyIdentifier(c, "trace_id", 32)
    && PyIdentifier(c, "span_id", 16)
  }

  predicate PyClaim(c: Context) {
    && PyDecimal(c, "claim_generation", true, CLAIM_GENERATION_MAX)
    && PyOptional(c, "attempt_number", PyDecimal(c, "attempt_number", false, INT64_MAX))
  }

  predicate PyService(c: Context) {
    && PyString(c, "entrypoint", 1, 160) && PyString(c, "service_name", 1, 100)
    && PyString(c, "service_instance_id", 1, 128) && PyString(c, "environment", 1, 32)
    && PyString(c, "release_revision", 1, 64)
  }

  predicate PyAuthority(c: Context) {
    && PyOptional(c, "authority_fingerprint",
                  PyString(c, "authority_fingerprint", 0, 64) && IsHexText(c["authority_fingerprint"].s, 64))
    && PyOptional(c, "ownership_epoch", PyDecimal(c, "ownership_epoch", true, INT64_MAX))
  }

  predicate PyResource(c: Context) {
    && PyOptional(c, "stage", "stage" in c && c["stage"].JString? && c["stage"].s in OPERATION_STAGES)
    && PyOptional(c, "resource_kind", PyString(c, "resource_kind", 0, 64))
    && PyOptional(c, "resource_key", PyString(c, "resource_key", 0, 128))
  }

  /** validate_semantic_context, trace half; the carrier's dash-separated fields have fixed widths. */
  predicate PyTraceSemantics(c: Context)
    requires PyTrace(c)
  {
    && c["traceparent"].s[3..35] == c["trace_id"].s
    && c["traceparent"].s[36..52] == c["span_id"].s
    && (c["tracestate"] != JNull ==> Tracestate.Accepts(Codes(c["tracestate"].s)))
  }

  /** validate_semantic_context, claim half. */
  predicate PyClaimSemantics(c: Context)
    requires PyClaim(c)
  {
    c["attempt_number"] != JNull ==> Value(c["attempt_number"].s) == Value(c["claim_generation"].s) + 1
  }

  /** Field validators see the given object; the model validator sees it with the default filled in. */
  predicate PythonAccepts(v: Json) {
    && v.JObject?
    && PyFieldsPresent(v.members)
    && var c := map["schema_version" := JNumber(1.0)] + v.members;
    && c["schema_version"] == JNumber(1.0)
    && PyIdentity(c) && PyTrace(c) && PyClaim(c) && PyService(c) && PyAuthority(c) && PyResource(c)
    && PyTraceSemantics(c) && PyClaimSemantics(c)
  }

  // -----------------------------------------------------------------------------------------
  // SQL: ck_pgqueuer_jobs_submission_context

  function TypeName(j: Json): (t: string) {
    match j
    case JNull => "null"
    case JBool(_) => "boolean"
    case JNumber(_) => "number"
    case JString(_) => "string"
    case JArray(_) => "array"
    case JObject(_) => "object"
  }

  /** jsonb_typeof(submission_context->'k') IN (...) */
  function TypeIn(c: Context, k: string, types: set<string>): (r: Sql) {
    In(if k in c then Some(TypeName(c[k])) else None, types)
  }

  /** submission_context->>'k'. The text of other types never matters: their type test is false. */
  function TextOf(c: Context, k: string): (t: Option<string>) {
    if k in c && c[k].JString? then Some(c[k].s) else None
  }

  function DecimalTest(t: Option<string>, zero: bool, low: nat, high: nat): (r: Sql) {
    if t.None? then Unknown
    else FromBool(SqlDecimal(t.value, zero, high) && Value(t.value) >= low)
  }

  function LengthBetween(t: Option<string>, low: nat, high: nat): (r: Sql) {
    if t.None? then Unknown else FromBool(low <= |t.value| <= high)
  }

  function AttemptFollowsClaim(attempt: Option<string>, claim: Option<string>): (r: Sql) {
    if attempt.None? || claim.None? then Unknown
    else FromBool(&& 1 <= |attempt.value| <= 19 && AllDigits(attempt.value) && attempt.value[0] != '0'
                  && AllDigits(claim.value) && Value(attempt.value) == Value(claim.value) + 1)
  }

  function NullOr(c: Context, k: string, test: Sql): (r: Sql) {
    Or(TypeIn(c, k, {"null"}), test)
  }

  function SqlShape(c: Context, keys: set<string>): (r: Sql) {
    And(FromBool("schema_version" in c && c["schema_version"] == JNumber(1.0)),
        And(FromBool(keys <= c.Keys), FromBool(c.Keys - keys == {})))
  }

  function SqlTypes(c: Context): (r: Sql) {
    And(And(And(TypeIn(c, "operation_id", {"string"}), TypeIn(c, "root_operation_id", {"string"})),
            And(TypeIn(c, "parent_operation_id", {"string", "null"}), TypeIn(c, "traceparent", {"string"}))),
    And(And(And(TypeIn(c, "tracestate", {"string", "null"}), TypeIn(c, "trace_id", {"string"})),
            And(TypeIn(c, "span_id", {"string"}), TypeIn(c, "claim_generation", {"string"}))),
    And(And(And(TypeIn(c, "attempt_number", {"string", "null"}), TypeIn(c, "entrypoint", {"string"})),
            And(TypeIn(c, "service_name", {"string"}), TypeIn(c, "service_instance_id", {"string"}))),
        And(And(TypeIn(c, "environment", {"string"}), TypeIn(c, "release_revision", {"string"})),
            And(TypeIn(c, "stage", {"string", "null"}),
                And(TypeIn(c, "resource_kind", {"string", "null"}), TypeIn(c, "resource_key", {"string", "null"})))))))
  }

  function SqlNumbers(c: Context): (r: Sql) {
    And(And(DecimalTest(TextOf(c, "operation_id"), false, 1, INT64_MAX),
            DecimalTest(TextOf(c, "root_operation_id"), false, 1, INT64_MAX)),
        And(NullOr(c, "parent_operation_id", DecimalTest(TextOf(c, "parent_operation_id"), false, 1, INT64_MAX)),
            And(DecimalTest(TextOf(c, "claim_generation"), true, 0, CLAIM_GENERATION_MAX),
                NullOr(c, "attempt_number",
                       AttemptFollowsClaim(TextOf(c, "attempt_number"), TextOf(c, "claim_generation"))))))
  }

  function SqlLengths(c: Context): (r: Sql) {
    And(And(LengthBetween(TextOf(c, "entrypoint"), 1, 160), LengthBetween(TextOf(c, "service_name"), 1, 100)),
        And(LengthBetween(TextOf(c, "service_instance_id"), 1, 128),
            And(LengthBetween(TextOf(c, "environment"), 1, 32), LengthBetween(TextOf(c, "release_revision"), 1, 64))))
  }

  function SqlAuthority(c: Context): (r: Sql) {
    And(And(TypeIn(c, "authority_fingerprint", {"string", "null"}), TypeIn(c, "ownership_epoch", {"string", "null"})),
        And(NullOr(c, "authority_fingerprint",
                   if TextOf(c, "authority_fingerprint").None? then Unknown
                   else FromBool(IsHexText(TextOf(c, "authority_fingerprint").value, 64))),
            NullOr(c, "ownership_epoch", DecimalTest(TextOf(c, "ownership_epoch"), true, 0, INT64_MAX))))
  }

  /** _constraint(keys, authority_checks); `octets` is octet_length(submission_context::text). */
  function SubmissionCheck(context: Option<Json>, keys: set<string>, authority: bool, octets: nat): (r: Sql) {
    if context.None? then True
    else if !context.value.JObject? then False
    else
      var c := context.value.members;
      And(And(SqlShape(c, keys), SqlTypes(c)),
          And(And(SqlNumbers(c), SqlLengths(c)),
              And(if authority then SqlAuthority(c) else True, FromBool(octets <= 4096))))
  }

  /** A stored context with its text size. */
  datatype Stored = Stored(context: Option<Json>, octets: nat)

  predicate PassesOld(row: Stored) {
    CheckPasses(SubmissionCheck(row.context, ENVELOPE_KEYS, false, row.octets))
  }

  predicate PassesNew(row: Stored) {
    CheckPasses(SubmissionCheck(row.context, CONTEXT_KEYS, true, row.octets))
  }

  // -----------------------------------------------------------------------------------------
  // Main results

  lemma SubsetOfSameSize<T>(a: set<T>, b: set<T>)
    requires a <= b && |a| == |b|
    ensures a == b
  {
    assert b == a + (b - a);
  }

  lemma {:induction false} KeyTestsCompareSets(c: Context)
    ensures TsKeysMatch(c) <==> c.Keys == CONTEXT_KEYS
  {
    if TsKeysMatch(c) {
      SubsetOfSameSize(c.Keys, CONTEXT_KEYS);
    }
  }

  /** What the envelope promises beyond the stored column's constraint: W3C trace fields that agree
      with each other, a known stage, and bounded resource names. */
  predicate TraceAndResource(v: Json) {
    v.JObject? && TsTrace(v.members) && TsResource(v.members)
  }

  lemma DecimalFieldAgrees(c: Context, k: string, zero: bool, high: nat)
    ensures DecimalTest(TextOf(c, k), zero, if zero then 0 else 1, high)
         == if k in c && c[k].JString? then FromBool(TsDecimal(c, k, if zero then 0 else 1, high)) else Unknown
  {
    if k in c && c[k].JString? {
      SqlDecimalAgrees(c[k].s, zero, high);
      if SqlDecimal(c[k].s, zero, high) { assert AllDigits(c[k].s); }
    }
  }

  lemma IdentityAgrees(c: Context)
    requires ENVELOPE_KEYS <= c.Keys && CheckPasses(SqlTypes(c)) && c["schema_version"] == JNumber(1.0)
    ensures TsIdentity(c)
       <==> && CheckPasses(DecimalTest(TextOf(c, "operation_id"), false, 1, INT64_MAX))
            && CheckPasses(DecimalTest(TextOf(c, "root_operation_id"), false, 1, INT64_MAX))
            && CheckPasses(NullOr(c, "parent_operation_id",
                                  DecimalTest(TextOf(c, "parent_operation_id"), false, 1, INT64_MAX)))
  {
    hide IsBoundedDecimal, SqlDecimal, DecimalTest;
    DecimalFieldAgrees(c, "operation_id", false, INT64_MAX);
    DecimalFieldAgrees(c, "root_operation_id", false, INT64_MAX);
    DecimalFieldAgrees(c, "parent_operation_id", false, INT64_MAX);
  }

  lemma ClaimAgrees(c: Context)
    requires ENVELOPE_KEYS <= c.Keys && CheckPasses(SqlTypes(c))
    ensures TsClaim(c)
       <==> && CheckPasses(DecimalTest(TextOf(c, "claim_generation"), true, 0, CLAIM_GENERATION_MAX))
            && CheckPasses(NullOr(c, "attempt_number",
                                  AttemptFollowsClaim(TextOf(c, "attempt_number"), TextOf(c, "claim_generation"))))
  {
    hide SqlDecimal, DecimalTest;
    DecimalFieldAgrees(c, "claim_generation", true, CLAIM_GENERATION_MAX);
    if c["attempt_number"].JString? && TsDecimal(c, "claim_generation", 0, CLAIM_GENERATION_MAX) {
      SqlDecimalAgrees(c["attempt_number"].s, false, INT64_MAX);
      AttemptTestAgrees(c["attempt_number"].s, c["claim_generation"].s);
    }
  }

  /** The claim bound leaves room for the attempt: no range test on the attempt is needed. */
  lemma AttemptTestAgrees(attempt: string, claim: string)
    requires IsBoundedDecimal(claim, 0, CLAIM_GENERATION_MAX)
    ensures AttemptFollowsClaim(Some(attempt), Some(claim)) == True
       <==> IsBoundedDecimal(attempt, 1, INT64_MAX) && Value(attempt) == Value(claim) + 1
    ensures AttemptFollowsClaim(Some(attempt), Some(claim)) != Unknown
  {
    SqlDecimalAgrees(attempt, false, INT64_MAX);
  }

  lemma AuthorityAgrees(c: Context)
    requires c.Keys == CONTEXT_KEYS
    ensures TsAuthority(c) <==> CheckPasses(SqlAuthority(c))
  {
    hide IsBoundedDecimal, SqlDecimal, DecimalTest, IsHexText;
    DecimalFieldAgrees(c, "ownership_epoch", true, INT64_MAX);
  }

  predicate StringField(c: Context, k: string) {
    k in c && c[k].JString?
  }

  predicate StringOrNull(c: Context, k: string) {
    k in c && (c[k].JString? || c[k].JNull?)
  }

  lemma TypeFields(c: Context, k: string)
    requires k in c
    ensures TypeIn(c, k, {"string"}) == FromBool(c[k].JString?)
    ensures TypeIn(c, k, {"string", "null"}) == FromBool(c[k].JString? || c[k].JNull?)
  {
  }

  /** The type tests on a context that has the keys: never unknown. */
  lemma {:induction false} TypesExactly(c: Context)
    requires ENVELOPE_KEYS <= c.Keys
    ensures CheckPasses(SqlTypes(c)) <==>
              && StringField(c, "operation_id") && StringField(c, "root_operation_id") && StringOrNull(c, "parent_operation_id")
              && StringField(c, "traceparent") && StringOrNull(c, "tracestate") && StringField(c, "trace_id")
              && StringField(c, "span_id") && StringField(c, "claim_generation") && StringOrNull(c, "attempt_number")
              && StringField(c, "entrypoint") && StringField(c, "service_name") && StringField(c, "service_instance_id")
              && StringField(c, "environment") && StringField(c, "release_revision") && StringOrNull(c, "stage")
              && StringOrNull(c, "resource_kind") && StringOrNull(c, "resource_key")
  {
    TypeFields(c, "operation_id"); TypeFields(c, "root_operation_id"); TypeFields(c, "parent_operation_id");
    TypeFields(c, "traceparent"); TypeFields(c, "tracestate"); TypeFields(c, "trace_id"); TypeFields(c, "span_id");
    TypeFields(c, "claim_generation"); TypeFields(c, "attempt_number"); TypeFields(c, "entrypoint");
    TypeFields(c, "service_name"); TypeFields(c, "service_instance_id"); TypeFields(c, "environment");
    TypeFields(c, "release_revision"); TypeFields(c, "stage"); TypeFields(c, "resource_kind"); TypeFields(c, "resource_key");
    hide TypeIn, TypeName;
  }

  /** What the constraint leaves of the trace and resource fields: strings, or null where they may be. */
  predicate TracesAreText(c: Context) {
    && StringField(c, "traceparent") && StringField(c, "trace_id") && StringField(c, "span_id")
    && StringOrNull(c, "tracestate") && StringOrNull(c, "stage")
    && StringOrNull(c, "resource_kind") && StringOrNull(c, "resource_key")
  }

  lemma TypesHold(c: Context)
    requires ENVELOPE_KEYS <= c.Keys && TsIdentity(c) && TracesAreText(c) && TsClaim(c) && TsService(c)
    ensures CheckPasses(SqlTypes(c))
  {
    TypesExactly(c);
    hide IsBoundedDecimal;
  }

  lemma TracesTyped(c: Context)
    ensures TsTrace(c) && TsResource(c) ==> TracesAreText(c)
  {
    hide IsHexText, IsTraceparent, Tracestate.Accepts, OPERATION_STAGES, AllZero;
  }

  /** What the constraint admits by itself, with the authority keys or without: the exact key set, the
      identity, claim and service rules of the validator, and its authority rule when it has those keys;
      of the trace and resource fields it asks only their types. */
  lemma {:induction false} SubmissionExactly(v: Json, authority: bool, octets: nat)
    ensures CheckPasses(SubmissionCheck(Some(v), if authority then CONTEXT_KEYS else ENVELOPE_KEYS, authority, octets))
       <==> && v.JObject? && v.members.Keys == (if authority then CONTEXT_KEYS else ENVELOPE_KEYS)
            && TsIdentity(v.members) && TracesAreText(v.members) && TsClaim(v.members) && TsService(v.members)
            && (authority ==> TsAuthority(v.members)) && octets <= 4096
  {
    hide TsIdentity, TsClaim, TsAuthority, TsService, TracesAreText, SqlTypes, SqlAuthority, SqlNumbers, SqlLengths, CONTEXT_KEYS;
    if v.JObject? {
      var c := v.members;
      var keys := if authority then CONTEXT_KEYS else ENVELOPE_KEYS;
      ShapeExactly(c, keys);
      assert ENVELOPE_KEYS <= keys by { KeysNested(); }
      if c.Keys == keys && "schema_version" in c && c["schema_version"] == JNumber(1.0) {
        SectionsAgree(c);
        if authority { AuthorityAgrees(c); }
      }
      SchemaVersionRequired(c);
    }
  }

  lemma KeysNested()
    ensures ENVELOPE_KEYS <= CONTEXT_KEYS
  {
  }

  lemma ShapeExactly(c: Context, keys: set<string>)
    ensures CheckPasses(SqlShape(c, keys)) <==> "schema_version" in c && c["schema_version"] == JNumber(1.0) && c.Keys == keys
  {
    if c.Keys - keys == {} && keys <= c.Keys {
      forall k | k in c.Keys ensures k in keys { assert k !in c.Keys - keys; }
    }
  }

  lemma {:induction false} SectionsAgree(c: Context)
    requires ENVELOPE_KEYS <= c.Keys && "schema_version" in c && c["schema_version"] == JNumber(1.0)
    ensures CheckPasses(SqlTypes(c)) && CheckPasses(SqlNumbers(c)) && CheckPasses(SqlLengths(c))
       <==> TsIdentity(c) && TracesAreText(c) && TsClaim(c) && TsService(c)
  {
    if CheckPasses(SqlTypes(c)) {
      IdentityAgrees(c);
      ClaimAgrees(c);
      ServiceAgrees(c);
      TypesExactly(c);
    }
    hide TsIdentity, TsClaim, TsService, SqlTypes, SqlLengths, DecimalTest, AttemptFollowsClaim, NullOr;
    if TsIdentity(c) && TracesAreText(c) && TsClaim(c) && TsService(c) { TypesHold(c); }
  }

  /** The column before and after the authority keys: no context, or one with exactly those keys that
      satisfies the rules above. */
  lemma {:induction false} StoredExactly(row: Stored)
    ensures PassesOld(row) <==>
              || row.context.None?
              || (&& row.context.value.JObject? && row.octets <= 4096
                  && var c := row.context.value.members;
                  && c.Keys == ENVELOPE_KEYS && TsIdentity(c) && TracesAreText(c) && TsClaim(c) && TsService(c))
    ensures PassesNew(row) <==>
              || row.context.None?
              || (&& row.context.value.JObject? && row.octets <= 4096
                  && var c := row.context.value.members;
                  && c.Keys == CONTEXT_KEYS && TsIdentity(c) && TracesAreText(c) && TsClaim(c) && TsService(c) && TsAuthority(c))
  {
    if row.context.Some? {
      SubmissionExactly(row.context.value, false, row.octets);
      SubmissionExactly(row.context.value, true, row.octets);
    } else {
      NoContextPasses(row.octets);
    }
    hide SubmissionCheck, TsIdentity, TracesAreText, TsClaim, TsService, TsAuthority, CONTEXT_KEYS;
  }

  lemma NoContextPasses(octets: nat)
    ensures PassesOld(Stored(None, octets)) && PassesNew(Stored(None, octets))
  {
  }

  /** The stored column admits exactly the contexts the TypeScript validator accepts, up to the
      trace and resource rules it does not state and the size it alone states. */
  lemma {:induction false} SqlAdmitsExactly(v: Json, octets: nat)
    ensures PassesNew(Stored(Some(v), octets)) && TraceAndResource(v)
       <==> TypeScriptAccepts(v) && octets <= 4096
  {
    hide TsIdentity, TsClaim, TsAuthority, TsTrace, TsResource, TsService, TracesAreText, TsKeysMatch, SubmissionCheck, PassesNew, CONTEXT_KEYS;
    StoredExactly(Stored(Some(v), octets));
    if v.JObject? {
      KeyTestsCompareSets(v.members);
      TracesTyped(v.members);
    }
  }

  lemma SchemaVersionRequired(c: Context)
    ensures TsIdentity(c) ==> "schema_version" in c && c["schema_version"] == JNumber(1.0)
  {
  }

  lemma ServiceAgrees(c: Context)
    requires ENVELOPE_KEYS <= c.Keys && CheckPasses(SqlTypes(c))
    ensures CheckPasses(SqlLengths(c)) <==> TsService(c)
  {
  }

  /** Every accepted context was refused by the constraint that predates the authority fields. */
  lemma {:induction false} OldConstraintRefusesAll(v: Json, octets: nat)
    requires TypeScriptAccepts(v)
    ensures !PassesOld(Stored(Some(v), octets))
  {
    hide TsIdentity, TsClaim, TsAuthority, TsTrace, TsResource, SqlTypes, SqlNumbers, SqlLengths, TsKeysMatch;
    KeyTestsCompareSets(v.members);
    assert "ownership_epoch" in v.members.Keys - ENVELOPE_KEYS;
  }

  /** The two constraints have no stored context in common: one forbids the keys the other demands. */
  lemma ConstraintsDisjoint(v: Json, octets: nat)
    ensures !(PassesOld(Stored(Some(v), octets)) && PassesNew(Stored(Some(v), octets)))
  {
    hide SqlTypes, SqlNumbers, SqlLengths, SqlAuthority;
    if v.JObject? {
      var c := v.members;
      assert "ownership_epoch" in CONTEXT_KEYS && "ownership_epoch" !in ENVELOPE_KEYS;
      if "ownership_epoch" in c { assert "ownership_epoch" in c.Keys - ENVELOPE_KEYS; }
    }
  }

  /** UPDATE ... SET submission_context = NULL WHERE it has one of the authority keys. */
  function Stripped(row: Stored): (r: Stored) {
    if row.context.Some? && row.context.value.JObject? && row.context.value.members.Keys * AUTHORITY_KEYS != {}
    then Stored(None, 0) else row
  }

  /** ADD CONSTRAINT validates what is stored: the widening applies exactly to tables that hold no
      context yet, and the downgrade always applies, because it clears every context. */
  lemma {:induction false} ConstraintSwaps(rows: seq<Stored>)
    ensures (forall i :: 0 <= i < |rows| ==> PassesOld(rows[i])) ==>
              ((forall i :: 0 <= i < |rows| ==> PassesNew(rows[i]))
                 <==> forall i :: 0 <= i < |rows| ==> rows[i].context.None?)
    ensures (forall i :: 0 <= i < |rows| ==> PassesNew(rows[i])) ==>
              forall i :: 0 <= i < |rows| ==> PassesOld(Stripped(rows[i])) && Stripped(rows[i]).context.None?
  {
    hide SqlTypes, SqlNumbers, SqlLengths, SqlAuthority;
    forall i | 0 <= i < |rows|
      ensures PassesOld(rows[i]) && PassesNew(rows[i]) ==> rows[i].context.None?
      ensures PassesNew(rows[i]) ==> Stripped(rows[i]).context.None?
    {
      if rows[i].context.Some? {
        ConstraintsDisjoint(rows[i].context.value, rows[i].octets);
        if PassesNew(rows[i]) {
          assert "ownership_epoch" in rows[i].context.value.members.Keys * AUTHORITY_KEYS;
        }
      }
    }
  }

  // -----------------------------------------------------------------------------------------
  // Python against TypeScript

  lemma PyDecimalAgrees(c: Context, k: string, zero: bool, maximum: nat)
    requires 0 < maximum <= INT64_MAX
    ensures PyDecimal(c, k, zero, maximum) <==> TsDecimal(c, k, if zero then 0 else 1, maximum)
  {
    if k in c && c[k].JString? {
      RangePatternAgrees(c[k].s, zero, maximum);
    }
  }

  lemma TracestateAgrees(s: string)
    ensures Tracestate.Accepts(Tracestate.Utf16(Codes(s)))
       <==> |s| <= 512 && Tracestate.SchemaPattern(Codes(s)) && Tracestate.Accepts(Codes(s))
  {
    Tracestate.ValidatorsAgree(Codes(s));
    if Tracestate.Accepts(Codes(s)) {
      Tracestate.PatternImplied(Codes(s));
    }
  }

  lemma {:induction false} PyIdentityAgrees(c: Context)
    requires "schema_version" in c && c["schema_version"] == JNumber(1.0)
    ensures PyIdentity(c) <==> TsIdentity(c)
  {
    hide RangePattern, IsBoundedDecimal;
    PyDecimalAgrees(c, "operation_id", false, INT64_MAX);
    PyDecimalAgrees(c, "root_operation_id", false, INT64_MAX);
    PyDecimalAgrees(c, "parent_operation_id", false, INT64_MAX);
  }

  lemma {:induction false} PyClaimAgrees(c: Context)
    ensures PyClaim(c) && PyClaimSemantics(c) <==> TsClaim(c)
  {
    hide RangePattern, IsBoundedDecimal;
    PyDecimalAgrees(c, "claim_generation", true, CLAIM_GENERATION_MAX);
    PyDecimalAgrees(c, "attempt_number", false, INT64_MAX);
  }

  lemma PyTraceAgrees(c: Context)
    ensures PyTrace(c) && PyTraceSemantics(c) <==> TsTrace(c)
  {
    hide IsHexText, Tracestate.Accepts, Tracestate.SchemaPattern;
    if TsString(c, "tracestate") { TracestateAgrees(c["tracestate"].s); }
  }

  lemma PyRestAgrees(c: Context)
    ensures PyService(c) && PyAuthority(c) && PyResource(c) <==> TsService(c) && TsAuthority(c) && TsResource(c)
  {
    hide RangePattern, IsBoundedDecimal;
    PyDecimalAgrees(c, "ownership_epoch", true, INT64_MAX);
  }

  /** The emitted Python model gives schema_version a default, so it accepts an object exactly when
      the TypeScript validator accepts it with that version filled in. */
  lemma {:induction false} PythonAcceptsExactly(v: Json)
    ensures PythonAccepts(v)
       <==> v.JObject? && TypeScriptAccepts(JObject(map["schema_version" := JNumber(1.0)] + v.members))
  {
    hide TsIdentity, TsTrace, TsClaim, TsService, TsAuthority, TsResource, TsKeysMatch,
         PyIdentity, PyTrace, PyClaim, PyService, PyAuthority, PyResource, PyTraceSemantics, PyClaimSemantics;
    if v.JObject? {
      var c := map["schema_version" := JNumber(1.0)] + v.members;
      KeyTestsCompareSets(c);
      PyClaimAgrees(c);
      PyTraceAgrees(c);
      PyRestAgrees(c);
      SchemaVersionRequired(c);
      if c["schema_version"] == JNumber(1.0) { PyIdentityAgrees(c); }
    }
  }

  /** So the two are not the same contract: dropping the version from any accepted context leaves
      one that only Python accepts. */
  lemma {:induction false} OnlyPythonToleratesMissingVersion(v: Json)
    requires TypeScriptAccepts(v)
    ensures PythonAccepts(v)
    ensures PythonAccepts(JObject(v.members - {"schema_version"}))
    ensures !TypeScriptAccepts(JObject(v.members - {"schema_version"}))
  {
    hide TsTrace, TsClaim, TsService, TsAuthority, TsResource, TsKeysMatch, PythonAccepts;
    var c := v.members;
    var dropped := c - {"schema_version"};
    assert "schema_version" in c;
    assert map["schema_version" := JNumber(1.0)] + c == c;
    assert map["schema_version" := JNumber(1.0)] + dropped == c;
    assert "schema_version" !in dropped;
    PythonAcceptsExactly(v);
    PythonAcceptsExactly(JObject(dropped));
  }

  // -----------------------------------------------------------------------------------------
  // The columns projected from an accepted context

  datatype SubmissionColumns = SubmissionColumns(
    id: int,
    rootJobId: Option<int>,
    traceparent: Option<string>,
    tracestate: Option<string>,
    traceId: Option<string>,
    spanId: Option<string>)

  function OptionalText(j: Json): (t: Option<string>) {
    if j.JString? then Some(j.s) else None
  }

  /** ck_pgqueuer_jobs_trace_id and ck_pgqueuer_jobs_submission_span_id */
  function IdentifierCheck(t: Option<string>, length: nat): (r: Sql) {
    Or(IsNull(t), if t.None? then Unknown else FromBool(IsHexText(t.value, length) && !AllZero(t.value)))
  }

  /** ck_pgqueuer_jobs_submission_traceparent: substring FROM 4 FOR 32 and FROM 37 FOR 16. */
  function TraceparentCheck(row: SubmissionColumns): (r: Sql) {
    Or(IsNull(row.traceparent),
       if row.traceparent.None? then Unknown
       else
         var t := row.traceparent.value;
         And(FromBool(IsTraceparent(t)),
             And(if |t| == 55 then Equals(Some(t[3..35]), row.traceId) else False,
                 if |t| == 55 then Equals(Some(t[36..52]), row.spanId) else False)))
  }

  /** What these constraints admit, each by itself: identifiers that are null or lower-case hex and not
      all zero; and a traceparent that is null, or well-formed and equal to whichever of the two
      identifiers is not null. */
  lemma {:induction false} ColumnChecksExactly(row: SubmissionColumns, t: Option<string>, length: nat)
    ensures CheckPasses(IdentifierCheck(t, length)) <==>
              t.Some? ==> IsHexText(t.value, length) && exists i :: 0 <= i < |t.value| && t.value[i] != '0'
    ensures CheckPasses(TraceparentCheck(row)) <==>
              row.traceparent.Some? ==>
                var p := row.traceparent.value;
                && IsTraceparent(p)
                && (row.traceId.Some? ==> row.traceId.value == p[3..35]) && (row.spanId.Some? ==> row.spanId.value == p[36..52])
  {
    hide IsHexText;
  }

  /** ck_pgqueuer_jobs_context_identity: IS NOT DISTINCT FROM is two-valued. */
  predicate ContextIdentity(row: SubmissionColumns, c: Context)
    requires TsIdentity(c)
  {
    && row.rootJobId.Some? && row.traceparent.Some? && row.traceId.Some? && row.spanId.Some?
    && row.id == Value(c["operation_id"].s)
    && row.rootJobId == Some(Value(c["root_operation_id"].s))
    && row.traceparent == TextOf(c, "traceparent") && row.tracestate == TextOf(c, "tracestate")
    && row.traceId == TextOf(c, "trace_id") && row.spanId == TextOf(c, "span_id")
  }

  /** The row an accepted context is stored with. */
  function Projection(c: Context): (row: SubmissionColumns)
    requires TypeScriptAccepts(JObject(c))
  {
    SubmissionColumns(Value(c["operation_id"].s), Some(Value(c["root_operation_id"].s)),
                      OptionalText(c["traceparent"]), OptionalText(c["tracestate"]),
                      OptionalText(c["trace_id"]), OptionalText(c["span_id"]))
  }

  /** Against an accepted context the identity constraint by itself leaves exactly one row, the
      projection of the context, and that row satisfies the other three. */
  lemma {:induction false} ColumnsAreTheProjection(v: Json, row: SubmissionColumns)
    requires TypeScriptAccepts(v)
    ensures ContextIdentity(row, v.members) <==> row == Projection(v.members)
    ensures row == Projection(v.members) ==>
              && CheckPasses(TraceparentCheck(row))
              && CheckPasses(IdentifierCheck(row.traceId, 32))
              && CheckPasses(IdentifierCheck(row.spanId, 16))
  {
    hide IsBoundedDecimal, Tracestate.Accepts, TsClaim, TsService, TsAuthority, TsResource, TsKeysMatch;
  }
}
