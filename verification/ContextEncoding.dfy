/** The operation contexts that are admitted, as the encodings of a record: every field is a number, a
    text or an absence, and the context is exactly their rendering. */
module ContextEncoding {
  import opened Decimals
  import opened SqlLogic
  import opened JsonValues
  import opened OperationContext
  import Tracestate

  datatype Envelope = Envelope(
    operationId: nat,
    rootOperationId: nat,
    parentOperationId: Option<nat>,
    traceId: string,
    spanId: string,
    flags: string,
    tracestate: Option<seq<Tracestate.Member>>,
    claimGeneration: nat,
    attempted: bool,                      // the attempt number, when stated, is the claim's plus one
    entrypoint: string,
    serviceName: string,
    serviceInstanceId: string,
    environment: string,
    releaseRevision: string,
    authorityFingerprint: Option<string>,
    ownershipEpoch: Option<nat>,
    stage: Option<string>,
    resourceKind: Option<string>,
    resourceKey: Option<string>)

  // -----------------------------------------------------------------------------------------
  // Well-formed records

  predicate LowerHex(s: string, length: nat) {
    |s| == length && forall i :: 0 <= i < |s| ==> s[i] in "0123456789abcdef"
  }

  predicate NotAllZero(s: string) {
    exists i :: 0 <= i < |s| && s[i] != '0'
  }

  predicate ValidNumbers(e: Envelope) {
    && 1 <= e.operationId <= 9223372036854775807 && 1 <= e.rootOperationId <= 9223372036854775807
    && (e.parentOperationId.Some? ==> 1 <= e.parentOperationId.value <= 9223372036854775807)
    && e.claimGeneration <= 9223372036854775806
    && (e.ownershipEpoch.Some? ==> e.ownershipEpoch.value <= 9223372036854775807)
  }

  ghost predicate ValidTrace(e: Envelope) {
    && LowerHex(e.traceId, 32) && NotAllZero(e.traceId)
    && LowerHex(e.spanId, 16) && NotAllZero(e.spanId)
    && LowerHex(e.flags, 2)
    && (e.tracestate.Some? ==>
          Tracestate.WellFormed(e.tracestate.value) && |Tracestate.Rendered(e.tracestate.value)| <= 512)
  }

  predicate ValidTexts(e: Envelope) {
    && 1 <= |e.entrypoint| <= 160 && 1 <= |e.serviceName| <= 100 && 1 <= |e.serviceInstanceId| <= 128
    && 1 <= |e.environment| <= 32 && 1 <= |e.releaseRevision| <= 64
    && (e.authorityFingerprint.Some? ==> LowerHex(e.authorityFingerprint.value, 64))
    && (e.resourceKind.Some? ==> |e.resourceKind.value| <= 64)
    && (e.resourceKey.Some? ==> |e.resourceKey.value| <= 128)
  }

  predicate ValidStage(e: Envelope) {
    e.stage.Some? ==> e.stage.value in {
      "alert", "backup", "claim", "cleanup", "deduplicate", "deliver", "discover", "extract", "fallback", "fetch",
      "filter", "flush", "graph", "index", "metadata", "model", "parse", "persist", "queue_wait", "restore", "submit",
      "transcript"}
  }

  ghost predicate Valid(e: Envelope) {
    ValidNumbers(e) && ValidTrace(e) && ValidTexts(e) && ValidStage(e)
  }

  // -----------------------------------------------------------------------------------------
  // Rendering

  function Text(s: Option<string>): (j: Json) {
    if s.None? then JNull else JString(s.value)
  }

  function Number(n: Option<nat>): (j: Json) {
    if n.None? then JNull else JString(Render(n.value))
  }

  predicate HasKeys(c: Context) {
    c.Keys == {"schema_version", "operation_id", "root_operation_id", "parent_operation_id", "traceparent",
               "tracestate", "trace_id", "span_id", "claim_generation", "attempt_number", "authority_fingerprint",
               "ownership_epoch", "entrypoint", "service_name", "service_instance_id", "environment",
               "release_revision", "stage", "resource_kind", "resource_key"}
  }

  predicate RendersNumbers(e: Envelope, c: Context)
    requires c.Keys == CONTEXT_KEYS
  {
    && c["schema_version"] == JNumber(1.0)
    && c["operation_id"] == JString(Render(e.operationId))
    && c["root_operation_id"] == JString(Render(e.rootOperationId))
    && c["parent_operation_id"] == Number(e.parentOperationId)
    && c["claim_generation"] == JString(Render(e.claimGeneration))
    && c["attempt_number"] == Number(if e.attempted then Some(e.claimGeneration + 1) else None)
    && c["ownership_epoch"] == Number(e.ownershipEpoch)
  }

  ghost predicate RendersTrace(e: Envelope, c: Context)
    requires c.Keys == CONTEXT_KEYS && ValidTrace(e)
  {
    && c["trace_id"] == JString(e.traceId) && c["span_id"] == JString(e.spanId)
    && c["traceparent"] == JString("00-" + e.traceId + "-" + e.spanId + "-" + e.flags)
    && if e.tracestate.None? then c["tracestate"].JNull?
       else c["tracestate"].JString? && Codes(c["tracestate"].s) == Tracestate.Rendered(e.tracestate.value)
  }

  predicate RendersTexts(e: Envelope, c: Context)
    requires c.Keys == CONTEXT_KEYS
  {
    && c["entrypoint"] == JString(e.entrypoint) && c["service_name"] == JString(e.serviceName)
    && c["service_instance_id"] == JString(e.serviceInstanceId) && c["environment"] == JString(e.environment)
    && c["release_revision"] == JString(e.releaseRevision)
    && c["authority_fingerprint"] == Text(e.authorityFingerprint)
    && c["stage"] == Text(e.stage) && c["resource_kind"] == Text(e.resourceKind) && c["resource_key"] == Text(e.resourceKey)
  }

  /** `v` is the context that renders the record. */
  ghost predicate Renders(e: Envelope, v: Json)
    requires Valid(e)
  {
    && v.JObject? && HasKeys(v.members)
    && (KeysSpelled(); RendersNumbers(e, v.members) && RendersTrace(e, v.members) && RendersTexts(e, v.members))
  }

  lemma KeysSpelled()
    ensures forall c: Context :: HasKeys(c) <==> c.Keys == CONTEXT_KEYS
  {
    assert CONTEXT_KEYS == {"schema_version", "operation_id", "root_operation_id", "parent_operation_id", "traceparent",
                            "tracestate", "trace_id", "span_id", "claim_generation", "attempt_number", "authority_fingerprint",
                            "ownership_epoch", "entrypoint", "service_name", "service_instance_id", "environment",
                            "release_revision", "stage", "resource_kind", "resource_key"};
  }

  // -----------------------------------------------------------------------------------------
  // Reading a context back

  function ReadText(j: Json): (s: Option<string>) {
    if j.JString? then Some(j.s) else None
  }

  function ReadNumber(j: Json): (n: Option<nat>) {
    if j.JString? && AllDigits(j.s) then Some(Value(j.s)) else None
  }

  function Digits(j: Json): (n: nat) {
    if ReadNumber(j).Some? then ReadNumber(j).value else 0
  }

  function Characters(j: Json): (s: string) {
    if j.JString? then j.s else ""
  }

  ghost function Read(c: Context): (e: Envelope)
    requires c.Keys == CONTEXT_KEYS
  {
    Envelope(
      Digits(c["operation_id"]), Digits(c["root_operation_id"]), ReadNumber(c["parent_operation_id"]),
      Characters(c["trace_id"]), Characters(c["span_id"]),
      if c["traceparent"].JString? && |c["traceparent"].s| == 55 then c["traceparent"].s[53..] else "",
      if c["tracestate"].JString? then Some(Tracestate.Parsed(Codes(c["tracestate"].s))) else None,
      Digits(c["claim_generation"]), c["attempt_number"].JString?,
      Characters(c["entrypoint"]), Characters(c["service_name"]), Characters(c["service_instance_id"]),
      Characters(c["environment"]), Characters(c["release_revision"]),
      ReadText(c["authority_fingerprint"]), ReadNumber(c["ownership_epoch"]),
      ReadText(c["stage"]), ReadText(c["resource_kind"]), ReadText(c["resource_key"]))
  }

  lemma DecimalRead(s: string, low: nat, high: nat)
    requires IsBoundedDecimal(s, low, high)
    ensures AllDigits(s) && low <= Value(s) <= high && Render(Value(s)) == s
  {
    ParseThenRender(s);
  }

  lemma DecimalWritten(n: nat, low: nat, high: nat)
    requires low <= n <= high <= INT64_MAX
    ensures IsBoundedDecimal(Render(n), low, high) && AllDigits(Render(n)) && Value(Render(n)) == n
  {
    RenderIsCanonical(n);
    NineteenCharactersSuffice(Render(n), low, high);
  }

  /** One decimal field, both ways. */
  lemma {:induction false} DecimalField(c: Context, k: string, low: nat, high: nat)
    requires high <= INT64_MAX && k in c
    ensures TsDecimal(c, k, low, high) <==>
              ReadNumber(c[k]).Some? && low <= ReadNumber(c[k]).value <= high && c[k] == Number(ReadNumber(c[k]))
  {
    if TsDecimal(c, k, low, high) { DecimalRead(c[k].s, low, high); }
    if ReadNumber(c[k]).Some? && low <= ReadNumber(c[k]).value <= high { DecimalWritten(ReadNumber(c[k]).value, low, high); }
  }

  lemma {:induction false} NumberReads(n: Option<nat>)
    ensures ReadNumber(Number(n)) == n
  {
    if n.Some? { RenderIsCanonical(n.value); }
  }

  lemma {:induction false} RequiredNumber(c: Context, k: string, low: nat, high: nat)
    requires high <= INT64_MAX && k in c
    ensures TsDecimal(c, k, low, high) <==> low <= Digits(c[k]) <= high && c[k] == JString(Render(Digits(c[k])))
  {
    DecimalField(c, k, low, high);
    RenderIsCanonical(Digits(c[k]));
    hide TsDecimal;
  }

  lemma {:induction false} OptionalNumber(c: Context, k: string, low: nat, high: nat)
    requires high <= INT64_MAX && k in c
    ensures TsNullOr(c, k, TsDecimal(c, k, low, high)) <==>
              && c[k] == Number(ReadNumber(c[k]))
              && (ReadNumber(c[k]).Some? ==> low <= ReadNumber(c[k]).value <= high)
  {
    DecimalField(c, k, low, high);
    hide TsDecimal;
  }

  /** The attempt is null, or the rendering of the claim's successor. */
  lemma {:induction false} AttemptNumber(c: Context)
    requires c.Keys == CONTEXT_KEYS
    requires Digits(c["claim_generation"]) <= CLAIM_GENERATION_MAX
    requires c["claim_generation"] == JString(Render(Digits(c["claim_generation"])))
    ensures TsNullOr(c, "attempt_number",
                     && TsDecimal(c, "attempt_number", 1, INT64_MAX)
                     && Value(c["attempt_number"].s) == Digits(c["claim_generation"]) + 1)
       <==> c["attempt_number"] == Number(if c["attempt_number"].JString? then Some(Digits(c["claim_generation"]) + 1) else None)
  {
    DecimalField(c, "attempt_number", 1, INT64_MAX);
    DecimalWritten(Digits(c["claim_generation"]) + 1, 1, INT64_MAX);
    hide Render, Canonical, IsBoundedDecimal;
  }

  /** The number fields are right exactly when they render what is read from them. */
  lemma {:induction false} NumbersExactly(c: Context)
    requires c.Keys == CONTEXT_KEYS
    ensures TsIdentity(c) && TsClaim(c) && TsNullOr(c, "ownership_epoch", TsDecimal(c, "ownership_epoch", 0, INT64_MAX))
       <==> ValidNumbers(Read(c)) && RendersNumbers(Read(c), c)
  {
    RequiredNumber(c, "operation_id", 1, INT64_MAX);
    RequiredNumber(c, "root_operation_id", 1, INT64_MAX);
    RequiredNumber(c, "claim_generation", 0, CLAIM_GENERATION_MAX);
    OptionalNumber(c, "parent_operation_id", 1, INT64_MAX);
    OptionalNumber(c, "ownership_epoch", 0, INT64_MAX);
    if Digits(c["claim_generation"]) <= CLAIM_GENERATION_MAX
       && c["claim_generation"] == JString(Render(Digits(c["claim_generation"]))) {
      AttemptNumber(c);
      RenderIsCanonical(Digits(c["claim_generation"]));
    }
    NumbersRead(c);
    hide TsDecimal, Number, ReadNumber, Digits, Render, Read, RendersNumbers, ValidNumbers;
  }

  lemma NumbersRead(c: Context)
    requires c.Keys == CONTEXT_KEYS
    ensures RendersNumbers(Read(c), c) <==>
              && c["schema_version"] == JNumber(1.0)
              && c["operation_id"] == JString(Render(Digits(c["operation_id"])))
              && c["root_operation_id"] == JString(Render(Digits(c["root_operation_id"])))
              && c["parent_operation_id"] == Number(ReadNumber(c["parent_operation_id"]))
              && c["claim_generation"] == JString(Render(Digits(c["claim_generation"])))
              && c["attempt_number"] == Number(if c["attempt_number"].JString? then Some(Digits(c["claim_generation"]) + 1) else None)
              && c["ownership_epoch"] == Number(ReadNumber(c["ownership_epoch"]))
    ensures ValidNumbers(Read(c)) <==>
              && 1 <= Digits(c["operation_id"]) <= INT64_MAX && 1 <= Digits(c["root_operation_id"]) <= INT64_MAX
              && (ReadNumber(c["parent_operation_id"]).Some? ==> 1 <= ReadNumber(c["parent_operation_id"]).value <= INT64_MAX)
              && Digits(c["claim_generation"]) <= CLAIM_GENERATION_MAX
              && (ReadNumber(c["ownership_epoch"]).Some? ==> ReadNumber(c["ownership_epoch"]).value <= INT64_MAX)
  {
    hide Digits, ReadNumber, Number, Render;
  }

  lemma {:induction false} HexSpelled(s: string, length: nat)
    ensures IsHexText(s, length) <==> LowerHex(s, length)
    ensures AllZero(s) <==> !NotAllZero(s)
  {
    forall c: char ensures (IsDigit(c) || 'a' <= c <= 'f') <==> c in "0123456789abcdef" {
      HexDigit(c);
    }
  }

  lemma HexDigit(c: char)
    ensures (IsDigit(c) || 'a' <= c <= 'f') <==> c in "0123456789abcdef"
  {
    var digits := "0123456789abcdef";
    assert forall i | 0 <= i < 16 :: digits[i] == if i < 10 then ('0' as int + i) as char else ('a' as int + i - 10) as char;
    if IsDigit(c) { assert digits[c as int - '0' as int] == c; }
    if 'a' <= c <= 'f' { assert digits[c as int - 'a' as int + 10] == c; }
  }

  lemma FieldsOf(trace: string, parent: string, flags: string)
    requires |trace| == 32 && |parent| == 16
    ensures var t := "00-" + trace + "-" + parent + "-" + flags;
            && |t| == 53 + |flags| && t[..3] == "00-" && t[3..35] == trace && t[35] == '-'
            && t[36..52] == parent && t[52] == '-' && t[53..] == flags
  {
    var head := "00-" + trace;
    assert |head| == 35 && head[..3] == "00-" && head[3..] == trace;
    var carrier := head + "-" + parent;
    assert |carrier| == 52 && carrier[..35] == head && carrier[36..] == parent;
    var t := carrier + "-" + flags;
    assert t[..52] == carrier && t[..35] == head;
    assert t[3..35] == t[..35][3..] && t[..3] == t[..35][..3] && t[36..52] == t[..52][36..];
  }

  lemma Reassembled(t: string)
    requires |t| == 55 && t[..3] == "00-" && t[35] == '-' && t[52] == '-'
    ensures t == "00-" + t[3..35] + "-" + t[36..52] + "-" + t[53..]
  {
    assert t[35..36] == "-" && t[52..53] == "-";
    assert t[..35] == t[..3] + t[3..35];
    assert t[..52] == t[..35] + t[35..36] + t[36..52];
    assert t == t[..52] + t[52..53] + t[53..];
  }

  /** A traceparent is version 00 and three dash-separated fields of fixed width. */
  lemma {:induction false} TraceparentExactly(t: string, trace: string, parent: string)
    requires |trace| == 32 && |parent| == 16
    ensures IsTraceparent(t) && t[3..35] == trace && t[36..52] == parent
       <==> && |t| == 55 && t == "00-" + trace + "-" + parent + "-" + t[53..]
            && LowerHex(trace, 32) && LowerHex(parent, 16) && LowerHex(t[53..], 2)
  {
    HexSpelled(trace, 32);
    HexSpelled(parent, 16);
    hide IsHexText, LowerHex;
    if |t| == 55 {
      HexSpelled(t[53..], 2);
      FieldsOf(trace, parent, t[53..]);
      if t[..3] == "00-" && t[35] == '-' && t[52] == '-' { Reassembled(t); }
    }
  }

  lemma {:induction false} TracestateExactly(s: string)
    ensures Tracestate.Accepts(Tracestate.Utf16(Codes(s))) <==>
              var ms := Tracestate.Parsed(Codes(s));
              Tracestate.WellFormed(ms) && |Tracestate.Rendered(ms)| <= 512 && Codes(s) == Tracestate.Rendered(ms)
  {
    var ms := Tracestate.Parsed(Codes(s));
    Tracestate.ValidatorsAgree(Codes(s));
    Tracestate.AcceptedExactly(Codes(s));
    if Tracestate.Accepts(Codes(s)) { Tracestate.RenderOfParse(Codes(s)); }
    hide Tracestate.WellFormed, Tracestate.Rendered, Tracestate.Parsed, Tracestate.Utf16;
  }

  lemma {:induction false} TraceExactly(c: Context)
    requires c.Keys == CONTEXT_KEYS
    ensures TsTrace(c) <==> ValidTrace(Read(c)) && RendersTrace(Read(c), c)
  {
    if c["trace_id"].JString? && c["span_id"].JString? && c["traceparent"].JString?
       && |c["trace_id"].s| == 32 && |c["span_id"].s| == 16 {
      HexSpelled(c["trace_id"].s, 32);
      HexSpelled(c["span_id"].s, 16);
      TraceparentExactly(c["traceparent"].s, c["trace_id"].s, c["span_id"].s);
      if c["tracestate"].JString? { TracestateExactly(c["tracestate"].s); }
    }
    hide IsTraceparent, Tracestate.Accepts, Tracestate.WellFormed, Tracestate.Rendered, Tracestate.Parsed, NotAllZero, AllZero;
  }

  lemma RequiredText(c: Context, k: string, low: nat, high: nat)
    requires k in c && low > 0
    ensures TsBoundedString(c, k, low, high) <==> low <= |Characters(c[k])| <= high && c[k] == JString(Characters(c[k]))
  {
  }

  lemma OptionalText(c: Context, k: string)
    requires k in c
    ensures c[k].JNull? || c[k].JString? <==> c[k] == Text(ReadText(c[k]))
    ensures c[k].JString? <==> ReadText(c[k]).Some?
    ensures c[k].JString? ==> ReadText(c[k]).value == c[k].s
  {
  }

  lemma {:induction false} ServiceExactly(c: Context)
    requires c.Keys == CONTEXT_KEYS
    ensures TsService(c) <==>
              && c["entrypoint"] == JString(Characters(c["entrypoint"])) && 1 <= |Characters(c["entrypoint"])| <= 160
              && c["service_name"] == JString(Characters(c["service_name"])) && 1 <= |Characters(c["service_name"])| <= 100
              && c["service_instance_id"] == JString(Characters(c["service_instance_id"]))
              && 1 <= |Characters(c["service_instance_id"])| <= 128
              && c["environment"] == JString(Characters(c["environment"])) && 1 <= |Characters(c["environment"])| <= 32
              && c["release_revision"] == JString(Characters(c["release_revision"]))
              && 1 <= |Characters(c["release_revision"])| <= 64
  {
    RequiredText(c, "entrypoint", 1, 160);
    RequiredText(c, "service_name", 1, 100);
    RequiredText(c, "service_instance_id", 1, 128);
    RequiredText(c, "environment", 1, 32);
    RequiredText(c, "release_revision", 1, 64);
    hide TsBoundedString, Characters;
  }

  lemma {:induction false} ResourceExactly(c: Context)
    requires c.Keys == CONTEXT_KEYS
    ensures TsResource(c) && TsNullOr(c, "authority_fingerprint",
                                      TsString(c, "authority_fingerprint") && IsHexText(c["authority_fingerprint"].s, 64))
       <==> var (a, s, k, r) := (ReadText(c["authority_fingerprint"]), ReadText(c["stage"]),
                                 ReadText(c["resource_kind"]), ReadText(c["resource_key"]));
            && c["authority_fingerprint"] == Text(a) && (a.Some? ==> LowerHex(a.value, 64))
            && c["stage"] == Text(s) && (s.Some? ==> s.value in OPERATION_STAGES)
            && c["resource_kind"] == Text(k) && (k.Some? ==> |k.value| <= 64)
            && c["resource_key"] == Text(r) && (r.Some? ==> |r.value| <= 128)
  {
    OptionalText(c, "authority_fingerprint");
    OptionalText(c, "stage");
    OptionalText(c, "resource_kind");
    OptionalText(c, "resource_key");
    if c["authority_fingerprint"].JString? { HexSpelled(c["authority_fingerprint"].s, 64); }
    hide IsHexText, LowerHex, Text, ReadText, OPERATION_STAGES;
  }

  lemma {:induction false} TextsExactly(c: Context)
    requires c.Keys == CONTEXT_KEYS
    ensures TsService(c) && TsResource(c)
            && TsNullOr(c, "authority_fingerprint",
                        TsString(c, "authority_fingerprint") && IsHexText(c["authority_fingerprint"].s, 64))
       <==> ValidTexts(Read(c)) && ValidStage(Read(c)) && RendersTexts(Read(c), c)
  {
    ServiceExactly(c);
    ResourceExactly(c);
    StagesSpelled(Read(c));
    hide TsService, TsResource, TsNullOr, TsString, IsHexText, LowerHex, ValidStage, Text, ReadText, Characters, Digits, ReadNumber, Codes;
  }

  lemma StagesSpelled(e: Envelope)
    ensures ValidStage(e) <==> (e.stage.Some? ==> e.stage.value in OPERATION_STAGES)
  {
  }

  /** What the TypeScript validator accepts, and so what all three agree on: exactly the renderings of
      well-formed records. */
  lemma {:induction false} AcceptedExactly(v: Json)
    ensures TypeScriptAccepts(v) <==> exists e :: Valid(e) && Renders(e, v)
  {
    KeysSpelled();
    if v.JObject? {
      KeyTestsCompareSets(v.members);
      if v.members.Keys == CONTEXT_KEYS {
        SectionsExactly(v.members);
        if TypeScriptAccepts(v) {
          assert Valid(Read(v.members)) && Renders(Read(v.members), v);
        }
      }
    }
    if e :| Valid(e) && Renders(e, v) {
      ReadOfRendering(e, v);
    }
  }

  lemma {:induction false} SectionsExactly(c: Context)
    requires c.Keys == CONTEXT_KEYS
    ensures TsIdentity(c) && TsTrace(c) && TsClaim(c) && TsService(c) && TsAuthority(c) && TsResource(c)
       <==> && Valid(Read(c)) && RendersNumbers(Read(c), c) && RendersTrace(Read(c), c) && RendersTexts(Read(c), c)
  {
    NumbersExactly(c);
    TraceExactly(c);
    TextsExactly(c);
    hide TsIdentity, TsTrace, TsClaim, TsService, TsResource, TsNullOr, Read, ValidNumbers, ValidTrace, ValidTexts,
         ValidStage, RendersNumbers, RendersTrace, RendersTexts;
  }

  lemma {:induction false} NumbersReadBack(e: Envelope, c: Context)
    requires c.Keys == CONTEXT_KEYS && RendersNumbers(e, c)
    ensures var r := Read(c);
            && r.operationId == e.operationId && r.rootOperationId == e.rootOperationId
            && r.parentOperationId == e.parentOperationId && r.claimGeneration == e.claimGeneration
            && r.attempted == e.attempted && r.ownershipEpoch == e.ownershipEpoch
  {
    NumberReads(Some(e.operationId));
    NumberReads(Some(e.rootOperationId));
    NumberReads(Some(e.claimGeneration));
    NumberReads(e.parentOperationId);
    NumberReads(e.ownershipEpoch);
    hide ReadNumber, Render;
  }

  lemma {:induction false} TraceReadsBack(e: Envelope, c: Context)
    requires c.Keys == CONTEXT_KEYS && ValidTrace(e) && RendersTrace(e, c)
    ensures var r := Read(c);
            r.traceId == e.traceId && r.spanId == e.spanId && r.flags == e.flags && r.tracestate == e.tracestate
  {
    var t := "00-" + e.traceId + "-" + e.spanId + "-" + e.flags;
    assert |t| == 55 && t[53..] == e.flags;
    if e.tracestate.Some? { Tracestate.ParseOfRender(e.tracestate.value); }
    hide Tracestate.WellFormed, Tracestate.Rendered, Tracestate.Parsed, LowerHex, NotAllZero, Codes, Digits, ReadNumber;
  }

  lemma TextsReadBack(e: Envelope, c: Context)
    requires c.Keys == CONTEXT_KEYS && RendersTexts(e, c)
    ensures var r := Read(c);
            && r.entrypoint == e.entrypoint && r.serviceName == e.serviceName
            && r.serviceInstanceId == e.serviceInstanceId && r.environment == e.environment
            && r.releaseRevision == e.releaseRevision && r.authorityFingerprint == e.authorityFingerprint
            && r.stage == e.stage && r.resourceKind == e.resourceKind && r.resourceKey == e.resourceKey
  {
    hide Digits, ReadNumber, Codes, Tracestate.Parsed;
  }

  /** A rendering reads back as its record: no two records have one context. */
  lemma {:induction false} ReadOfRendering(e: Envelope, v: Json)
    requires Valid(e) && Renders(e, v)
    ensures v.JObject? && v.members.Keys == CONTEXT_KEYS && Read(v.members) == e
  {
    KeysSpelled();
    hide HasKeys, ValidNumbers, ValidTrace, ValidTexts, ValidStage, RendersNumbers, RendersTrace, RendersTexts, Read;
    NumbersReadBack(e, v.members);
    TraceReadsBack(e, v.members);
    TextsReadBack(e, v.members);
  }
}
