/** Rows of workflow_terminal_events: the check constraints before and after `system_check`
    rows were admitted, the grammar of event keys, and the downgrade. */
module TerminalEvents {
  import opened Decimals
  import opened SqlLogic

  // -----------------------------------------------------------------------------------------
  // Text of the column types

  function IntText(n: int): (s: string) {
    if n < 0 then "-" + Render(-n) else Render(n)
  }

  predicate IsHex(c: char) {
    IsDigit(c) || 'a' <= c <= 'f'
  }

  predicate IsUuidText(s: string) {
    && |s| == 36
    && forall i :: 0 <= i < 36 ==>
         if i == 8 || i == 13 || i == 18 || i == 23 then s[i] == '-' else IsHex(s[i])
  }

  /** PostgreSQL's text form of a UUID. */
  type Uuid = s: string | IsUuidText(s) witness "00000000-0000-0000-0000-000000000000"

  /** Version nibble 1-5 and variant nibble 8, 9, a or b. */
  predicate IsVersionedUuid(s: string) {
    && IsUuidText(s)
    && '1' <= s[14] <= '5'
    && s[19] in {'8', '9', 'a', 'b'}
  }

  predicate IsPositiveDecimal(s: string) {
    s != [] && AllDigits(s) && s[0] != '0'
  }

  // -----------------------------------------------------------------------------------------
  // Rows

  datatype EventRow = EventRow(
    eventKey: string,
    sourceKind: string,
    operationId: Option<int>,
    claimGeneration: Option<int>,
    terminalStatus: Option<string>,
    actionId: Option<int>,
    runId: Option<Uuid>,
    contentId: Option<int>,
    occurredAt: int,
    createdAt: int,
    classification: string,
    telemetryEmittedAt: Option<int>)

  const TERMINAL: set<string> := {"completed", "failed", "cancelled"}

  // -----------------------------------------------------------------------------------------
  // Key formulas

  function OperationKey(id: string, generation: string, status: string): (k: string) {
    "operation:" + (id + (":claim:" + (generation + (":status:" + status))))
  }

  function ActionKey(id: string): (k: string) {
    "reconciliation-action:" + id
  }

  function FailureKey(run: string, content: string): (k: string) {
    "reconciliation-failure:" + (run + (":content:" + (content + ":reason:apply_failed")))
  }

  predicate MatchesFailurePattern(k: string) {
    && |k| > 88
    && k[..23] == "reconciliation-failure:"
    && IsVersionedUuid(k[23..59])
    && k[59..68] == ":content:"
    && IsPositiveDecimal(k[68..|k| - 20])
    && k[|k| - 20..] == ":reason:apply_failed"
  }

  predicate MatchesSystemCheckPattern(k: string) {
    && |k| > 30
    && k[..30] == "system_check:backup_freshness:"
    && AllDigits(k[30..])
  }

  // -----------------------------------------------------------------------------------------
  // The three constraints the widening migration replaces

  function Text(s: string): (r: Option<string>) {
    Some(s)
  }

  function AsText(n: Option<int>): (r: Option<string>) {
    if n.None? then None else Some(IntText(n.value))
  }

  function UuidText(u: Option<Uuid>): (r: Option<string>) {
    if u.None? then None else Some(u.value)
  }

  function KindCheck(row: EventRow, wide: bool): (r: Sql) {
    FromBool(row.sourceKind in {"operation", "reconciliation_action", "reconciliation_failure"}
             || (wide && row.sourceKind == "system_check"))
  }

  function OperationIdentity(row: EventRow): (r: Sql) {
    And(FromBool(row.sourceKind == "operation"),
        Equals(Text(row.eventKey),
               Cat(Text("operation:"), Cat(AsText(row.operationId),
                   Cat(Text(":claim:"), Cat(AsText(row.claimGeneration),
                       Cat(Text(":status:"), row.terminalStatus)))))))
  }

  function ActionIdentity(row: EventRow): (r: Sql) {
    And(FromBool(row.sourceKind == "reconciliation_action"),
        Equals(Text(row.eventKey), Cat(Text("reconciliation-action:"), AsText(row.actionId))))
  }

  function FailureIdentity(row: EventRow): (r: Sql) {
    And(And(FromBool(row.sourceKind == "reconciliation_failure"),
            Equals(Text(row.eventKey),
                   Cat(Text("reconciliation-failure:"), Cat(UuidText(row.runId),
                       Cat(Text(":content:"), Cat(AsText(row.contentId),
                           Text(":reason:apply_failed"))))))),
        FromBool(MatchesFailurePattern(row.eventKey)))
  }

  function SystemCheckIdentity(row: EventRow): (r: Sql) {
    And(FromBool(row.sourceKind == "system_check"),
        FromBool(MatchesSystemCheckPattern(row.eventKey)))
  }

  function IdentityCheck(row: EventRow, wide: bool): (r: Sql) {
    Or(Or(OperationIdentity(row), Or(ActionIdentity(row), FailureIdentity(row))),
       if wide then SystemCheckIdentity(row) else False)
  }

  /** IS [NOT] NULL is never unknown, so the shape constraint is two-valued. */
  function ShapeCheck(row: EventRow, wide: bool): (r: Sql) {
    FromBool(
      || (&& row.sourceKind == "operation" && row.operationId.Some?
          && row.claimGeneration.Some? && row.terminalStatus.Some?
          && row.actionId.None? && row.runId.None? && row.contentId.None?)
      || (&& row.sourceKind == "reconciliation_action" && row.operationId.None?
          && row.claimGeneration.None? && row.terminalStatus.None?
          && row.actionId.Some? && row.runId.Some? && row.contentId.Some?)
      || (&& row.sourceKind == "reconciliation_failure" && row.operationId.None?
          && row.claimGeneration.None? && row.terminalStatus.None?
          && row.actionId.None? && row.runId.Some? && row.contentId.Some?)
      || (&& wide
          && row.sourceKind == "system_check" && row.operationId.None?
          && row.claimGeneration.None? && row.terminalStatus.None?
          && row.actionId.None? && row.runId.None? && row.contentId.None?))
  }

  predicate PassesSourceChecks(row: EventRow, wide: bool) {
    && CheckPasses(KindCheck(row, wide))
    && CheckPasses(IdentityCheck(row, wide))
    && CheckPasses(ShapeCheck(row, wide))
  }

  /** The remaining constraints and column widths, the same before and after. */
  predicate PassesColumnChecks(row: EventRow) {
    && |row.eventKey| <= 160 && |row.sourceKind| <= 40 && |row.classification| <= 20
    && (row.terminalStatus.Some? ==> |row.terminalStatus.value| <= 20)
    && FitsBigint(row.operationId) && FitsBigint(row.claimGeneration)
    && FitsBigint(row.actionId) && FitsBigint(row.contentId)
    && CheckPasses(Or(IsNull(row.terminalStatus), In(row.terminalStatus, TERMINAL)))
    && row.classification in {"pending", "ready", "telemetry_only", "rejected"}
    && CheckPasses(Or(IsNull(row.operationId), GreaterThan(row.operationId, 0)))
    && CheckPasses(Or(IsNull(row.claimGeneration), GreaterThan(row.claimGeneration, -1)))
    && CheckPasses(Or(IsNull(row.actionId), GreaterThan(row.actionId, 0)))
    && CheckPasses(Or(IsNull(row.contentId), GreaterThan(row.contentId, 0)))
  }

  predicate FitsBigint(n: Option<int>) {
    n.Some? ==> -(INT64_MAX as int) - 1 <= n.value <= INT64_MAX
  }

  predicate Storable(row: EventRow) {
    PassesSourceChecks(row, true) && PassesColumnChecks(row)
  }

  // -----------------------------------------------------------------------------------------
  // What the constraints mean

  /** The row carries its kind's identity and nothing else, and its key is that identity. */
  predicate WellKeyed(row: EventRow) {
    match row.sourceKind
    case "operation" =>
      && row.operationId.Some? && row.claimGeneration.Some? && row.terminalStatus.Some?
      && row.actionId.None? && row.runId.None? && row.contentId.None?
      && row.eventKey == OperationKey(IntText(row.operationId.value),
                                      IntText(row.claimGeneration.value), row.terminalStatus.value)
    case "reconciliation_action" =>
      && row.operationId.None? && row.claimGeneration.None? && row.terminalStatus.None?
      && row.actionId.Some? && row.runId.Some? && row.contentId.Some?
      && row.eventKey == ActionKey(IntText(row.actionId.value))
    case "reconciliation_failure" =>
      && row.operationId.None? && row.claimGeneration.None? && row.terminalStatus.None?
      && row.actionId.None? && row.runId.Some? && row.contentId.Some?
      && IsVersionedUuid(row.runId.value) && row.contentId.value > 0
      && row.eventKey == FailureKey(row.runId.value, IntText(row.contentId.value))
    case "system_check" =>
      && row.operationId.None? && row.claimGeneration.None? && row.terminalStatus.None?
      && row.actionId.None? && row.runId.None? && row.contentId.None?
      && MatchesSystemCheckPattern(row.eventKey)
    case _ => false
  }

  // -----------------------------------------------------------------------------------------
  // Reading keys back

  predicate NoColon(s: string) {
    ':' !in s
  }

  lemma {:induction false} RenderedIntHasNoColon(n: nat)
    ensures NoColon(Render(n))
  {
    RenderIsCanonical(n);
  }

  lemma IntTextHasNoColon(n: int)
    ensures NoColon(IntText(n))
  {
    RenderedIntHasNoColon(if n < 0 then -n else n);
  }

  lemma IntTextInjective(a: int, b: int)
    ensures IntText(a) == IntText(b) ==> a == b
  {
    RenderIsCanonical(if a < 0 then -a else a);
    RenderIsCanonical(if b < 0 then -b else b);
    if a < 0 && b < 0 {
      assert IntText(a)[1..] == Render(-a) && IntText(b)[1..] == Render(-b);
    } else if a < 0 {
      assert IntText(a)[0] == '-';
    } else if b < 0 {
      assert IntText(b)[0] == '-';
    }
  }

  /** A colon-free field ends where the next field's colon begins. */
  lemma FieldsSplitUniquely(a: string, rest: string, b: string, rest': string)
    requires NoColon(a) && NoColon(b)
    requires rest != [] && rest[0] == ':' && rest' != [] && rest'[0] == ':'
    ensures a + rest == b + rest' ==> a == b && rest == rest'
  {
    if |a| < |b| {
      assert (a + rest)[|a|] == ':' && (b + rest')[|a|] == b[|a|];
    } else if |a| > |b| {
      assert (b + rest')[|b|] == ':' && (a + rest)[|b|] == a[|b|];
    } else {
      assert a == (a + rest)[..|a|] && rest == (a + rest)[|a|..];
      assert b == (b + rest')[..|b|] && rest' == (b + rest')[|b|..];
    }
  }

  lemma StripPrefix(prefix: string, a: string, b: string)
    requires prefix + a == prefix + b
    ensures a == b
  {
    assert a == (prefix + a)[|prefix|..] && b == (prefix + b)[|prefix|..];
  }

  /** The formatted key of an operation event determines operation, claim and status. */
  lemma OperationKeyInjective(id: int, generation: int, status: string,
                              id': int, generation': int, status': string)
    requires OperationKey(IntText(id), IntText(generation), status)
          == OperationKey(IntText(id'), IntText(generation'), status')
    ensures id == id' && generation == generation' && status == status'
  {
    IntTextHasNoColon(id); IntTextHasNoColon(id');
    IntTextHasNoColon(generation); IntTextHasNoColon(generation');
    var tail := IntText(generation) + (":status:" + status);
    var tail' := IntText(generation') + (":status:" + status');
    StripPrefix("operation:", IntText(id) + (":claim:" + tail), IntText(id') + (":claim:" + tail'));
    FieldsSplitUniquely(IntText(id), ":claim:" + tail, IntText(id'), ":claim:" + tail');
    StripPrefix(":claim:", tail, tail');
    FieldsSplitUniquely(IntText(generation), ":status:" + status, IntText(generation'), ":status:" + status');
    StripPrefix(":status:", status, status');
    IntTextInjective(id, id');
    IntTextInjective(generation, generation');
  }

  lemma FailureKeyInjective(run: Uuid, content: int, run': Uuid, content': int)
    requires FailureKey(run, IntText(content)) == FailureKey(run', IntText(content'))
    ensures run == run' && content == content'
  {
    IntTextHasNoColon(content); IntTextHasNoColon(content');
    var tail := IntText(content) + ":reason:apply_failed";
    var tail' := IntText(content') + ":reason:apply_failed";
    StripPrefix("reconciliation-failure:", run + (":content:" + tail), run' + (":content:" + tail'));
    FieldsSplitUniquely(run, ":content:" + tail, run', ":content:" + tail');
    StripPrefix(":content:", tail, tail');
    FieldsSplitUniquely(IntText(content), ":reason:apply_failed", IntText(content'), ":reason:apply_failed");
    IntTextInjective(content, content');
  }

  lemma SlicesOf(s: string, before: string, field: string, after: string)
    requires s == before + (field + after)
    ensures |s| == |before| + |field| + |after|
    ensures s[..|before|] == before
    ensures s[|before|..|before| + |field|] == field
    ensures s[|before| + |field|..] == after
  {
  }

  /** On a key built by the formula, the pattern tests the UUID version and the sign. */
  lemma FailurePatternOnFormula(run: Uuid, content: int)
    ensures MatchesFailurePattern(FailureKey(run, IntText(content)))
       <==> IsVersionedUuid(run) && content > 0
  {
    var c := IntText(content);
    var k := FailureKey(run, c);
    var start := "reconciliation-failure:";
    var tail := c + ":reason:apply_failed";
    SlicesOf(k, start, run, ":content:" + tail);
    assert k == (start + run) + (":content:" + tail);
    SlicesOf(k, start + run, ":content:", tail);
    assert k == (start + run + ":content:") + tail;
    SlicesOf(k, start + run + ":content:", c, ":reason:apply_failed");
    assert |k| == 88 + |c|;
    RenderIsCanonical(if content < 0 then -content else content);
    if content < 0 {
      assert c[0] == '-';
    } else if content == 0 {
      assert c == "0";
    }
  }

  // -----------------------------------------------------------------------------------------
  // Main results

  /** Although each constraint admits `unknown`, the three together are two-valued: they admit
      exactly the rows whose key is the formula of their kind over non-null identity columns. */
  lemma SourceChecksExact(row: EventRow)
    ensures PassesSourceChecks(row, true) <==> WellKeyed(row)
    ensures PassesSourceChecks(row, false) <==> WellKeyed(row) && row.sourceKind != "system_check"
  {
    if row.sourceKind == "reconciliation_failure" && row.runId.Some? && row.contentId.Some? {
      FailurePatternOnFormula(row.runId.value, row.contentId.value);
    }
  }

  /** The identity constraint by itself admits an operation row with any key at all, as soon as
      one identity column is null. */
  lemma IdentityAloneAdmitsUnknown(row: EventRow)
    requires row.sourceKind == "operation"
    ensures CheckPasses(IdentityCheck(row, true))
       <==> || row.operationId.None? || row.claimGeneration.None? || row.terminalStatus.None?
            || row.eventKey == OperationKey(IntText(row.operationId.value),
                                            IntText(row.claimGeneration.value), row.terminalStatus.value)
  {
  }

  /** Widening one or two of the three constraints admits no system-check row. */
  lemma WideningIsAllOrNothing(row: EventRow, kind: bool, identity: bool, shape: bool)
    requires row.sourceKind == "system_check"
    ensures (&& CheckPasses(KindCheck(row, kind))
             && CheckPasses(IdentityCheck(row, identity))
             && CheckPasses(ShapeCheck(row, shape)))
       <==> kind && identity && shape && WellKeyed(row)
  {
  }

  /** The four grammars are disjoint, and within a kind the key is the identity (for an action,
      the action id: its run and content are not part of the key). */
  lemma KeyDeterminesIdentity(a: EventRow, b: EventRow)
    requires WellKeyed(a) && WellKeyed(b) && a.eventKey == b.eventKey
    ensures a.sourceKind == b.sourceKind
    ensures a.operationId == b.operationId && a.claimGeneration == b.claimGeneration
    ensures a.terminalStatus == b.terminalStatus && a.actionId == b.actionId
    ensures a.sourceKind != "reconciliation_action" ==> a.runId == b.runId && a.contentId == b.contentId
  {
    KeyPrefix(a);
    KeyPrefix(b);
    match a.sourceKind {
      case "operation" =>
        OperationKeyInjective(a.operationId.value, a.claimGeneration.value, a.terminalStatus.value,
                              b.operationId.value, b.claimGeneration.value, b.terminalStatus.value);
      case "reconciliation_action" =>
        StripPrefix("reconciliation-action:", IntText(a.actionId.value), IntText(b.actionId.value));
        IntTextInjective(a.actionId.value, b.actionId.value);
      case "reconciliation_failure" =>
        FailureKeyInjective(a.runId.value, a.contentId.value, b.runId.value, b.contentId.value);
      case _ =>
    }
  }

  /** Characters 0 and 15 of a key tell the kinds apart. */
  lemma KeyPrefix(row: EventRow)
    requires WellKeyed(row)
    ensures |row.eventKey| > 15
    ensures row.sourceKind == "operation" <==> row.eventKey[0] == 'o'
    ensures row.sourceKind == "system_check" <==> row.eventKey[0] == 's'
    ensures row.sourceKind == "reconciliation_action" <==> row.eventKey[0] == 'r' && row.eventKey[15] == 'a'
    ensures row.sourceKind == "reconciliation_failure" <==> row.eventKey[0] == 'r' && row.eventKey[15] == 'f'
  {
    if row.sourceKind == "system_check" {
      assert row.eventKey == "system_check:backup_freshness:" + row.eventKey[30..];
    }
  }

  // -----------------------------------------------------------------------------------------
  // The downgrade

  datatype Delivery = Delivery(eventId: int, sinkName: string)

  predicate References(deliveries: map<int, Delivery>, id: int) {
    exists d | d in deliveries :: deliveries[d].eventId == id
  }

  /** Event rows, their restricted delivery references, and which constraints are in force. */
  class AlertTables {
    var events: map<int, EventRow>
    var deliveries: map<int, Delivery>
    var kindWide: bool
    var identityWide: bool
    var shapeWide: bool

    ghost predicate Valid()
      reads this
    {
      && (forall e :: e in events ==>
            && CheckPasses(KindCheck(events[e], kindWide))
            && CheckPasses(IdentityCheck(events[e], identityWide))
            && CheckPasses(ShapeCheck(events[e], shapeWide)))
      && (forall d :: d in deliveries ==> deliveries[d].eventId in events)
    }

    /** ON DELETE RESTRICT: refused while a delivery refers to one of the rows. */
    method DeleteSystemCheckEvents() returns (ok: bool)
      requires Valid()
      modifies this
      ensures Valid()
      ensures ok <==> forall e :: e in old(events) && old(events)[e].sourceKind == "system_check" ==>
                        !References(old(deliveries), e)
      ensures !ok ==> events == old(events)
      ensures ok ==> events == map e | e in old(events) && old(events)[e].sourceKind != "system_check" :: old(events)[e]
      ensures deliveries == old(deliveries)
      ensures kindWide == old(kindWide) && identityWide == old(identityWide) && shapeWide == old(shapeWide)
    {
      hide KindCheck, IdentityCheck, ShapeCheck;
      ok := forall e | e in events && events[e].sourceKind == "system_check" :: !References(deliveries, e);
      if ok {
        forall d | d in deliveries
          ensures events[deliveries[d].eventId].sourceKind != "system_check"
        {
          assert References(deliveries, deliveries[d].eventId);
        }
        events := map e | e in events && events[e].sourceKind != "system_check" :: events[e];
      }
    }

    method DeleteSystemCheckDeliveries()
      requires Valid()
      modifies this`deliveries
      ensures Valid()
      ensures deliveries == map d | d in old(deliveries)
                              && events[old(deliveries)[d].eventId].sourceKind != "system_check" :: old(deliveries)[d]
    {
      hide KindCheck, IdentityCheck, ShapeCheck;
      deliveries := map d | d in deliveries && events[deliveries[d].eventId].sourceKind != "system_check" :: deliveries[d];
    }

    /** ADD CONSTRAINT validates the rows already there. */
    method ReplaceKindCheck(wide: bool) returns (ok: bool)
      modifies this`kindWide
      ensures ok <==> forall e :: e in events ==> CheckPasses(KindCheck(events[e], wide))
      ensures kindWide == if ok then wide else old(kindWide)
    {
      ok := forall e | e in events :: CheckPasses(KindCheck(events[e], wide));
      if ok { kindWide := wide; }
    }

    method ReplaceIdentityCheck(wide: bool) returns (ok: bool)
      modifies this`identityWide
      ensures ok <==> forall e :: e in events ==> CheckPasses(IdentityCheck(events[e], wide))
      ensures identityWide == if ok then wide else old(identityWide)
    {
      ok := forall e | e in events :: CheckPasses(IdentityCheck(events[e], wide));
      if ok { identityWide := wide; }
    }

    method ReplaceShapeCheck(wide: bool) returns (ok: bool)
      modifies this`shapeWide
      ensures ok <==> forall e :: e in events ==> CheckPasses(ShapeCheck(events[e], wide))
      ensures shapeWide == if ok then wide else old(shapeWide)
    {
      ok := forall e | e in events :: CheckPasses(ShapeCheck(events[e], wide));
      if ok { shapeWide := wide; }
    }

    /** From the widened tables every step of the downgrade succeeds: no system-check row
        is left, no other row is lost, and no delivery dangles. */
    method Downgrade() returns (ok: bool)
      requires Valid() && kindWide && identityWide && shapeWide
      modifies this
      ensures ok && Valid() && !kindWide && !identityWide && !shapeWide
      ensures forall e :: e in events ==> WellKeyed(events[e]) && events[e].sourceKind != "system_check"
      ensures forall e :: e in old(events) && old(events)[e].sourceKind != "system_check" ==>
                e in events && events[e] == old(events)[e]
      ensures forall d :: d in old(deliveries) && old(events)[old(deliveries)[d].eventId].sourceKind != "system_check" ==>
                d in deliveries && deliveries[d] == old(deliveries)[d]
    {
      hide KindCheck, IdentityCheck, ShapeCheck, WellKeyed;
      DeleteSystemCheckDeliveries();
      var deleted := DeleteSystemCheckEvents();
      assert deleted;
      forall e | e in events
        ensures WellKeyed(events[e]) && PassesSourceChecks(events[e], false)
      {
        SourceChecksExact(events[e]);
      }
      var kind := ReplaceKindCheck(false);
      var identity := ReplaceIdentityCheck(false);
      var shape := ReplaceShapeCheck(false);
      ok := deleted && kind && identity && shape;
    }

    /** And every row the narrow constraints admit survives the upgrade. */
    method Upgrade() returns (ok: bool)
      requires Valid() && !kindWide && !identityWide && !shapeWide
      modifies this`kindWide, this`identityWide, this`shapeWide
      ensures ok && Valid() && kindWide && identityWide && shapeWide
    {
      hide KindCheck, IdentityCheck, ShapeCheck, WellKeyed;
      forall e | e in events
        ensures PassesSourceChecks(events[e], true)
      {
        SourceChecksExact(events[e]);
      }
      var kind := ReplaceKindCheck(true);
      var identity := ReplaceIdentityCheck(true);
      var shape := ReplaceShapeCheck(true);
      ok := kind && identity && shape;
    }
  }
}
