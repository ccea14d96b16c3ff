/** The conductor: a plan of sub-tasks, an approval gate before each, delegation with retry, running
    totals, and three ways out. */
module Conductor {
  import opened SqlLogic

  const MAX_RETRIES: nat := 2

  // -----------------------------------------------------------------------------------------
  // Data

  /** A metadata or finding entry of unconstrained type: absent, a number, or something that makes
      arithmetic and comparison raise. */
  datatype Entry = Absent | Number(n: real) | NotNumeric

  function Amount(e: Entry): (n: real) {
    if e.Number? then e.n else 0.0
  }

  datatype Finding = Finding(title: string, confidence: Entry)

  datatype SpecialistResult = SpecialistResult(
    success: bool,
    findings: seq<Finding>,
    content: string,
    confidence: real,
    cost: Entry,
    tokensUsed: Entry,
    tokens: Entry)

  /** metadata.get("tokens_used", metadata.get("tokens", 0)) */
  function TokenEntry(r: SpecialistResult): (e: Entry) {
    if r.tokensUsed.Absent? then r.tokens else r.tokensUsed
  }

  const EXCEPTION_RESULT := SpecialistResult(false, [], "", 0.0, Absent, Absent, Absent)

  datatype SubTask = SubTask(specialist: string, prompt: string)

  /** An element of the array the planner's model returned. */
  datatype RawItem = NotAnObject | Item(specialist: Option<string>, prompt: Option<string>)

  datatype PlannerReply = NoRouter | PlanningRaised | NoArray | Parsed(items: seq<RawItem>)

  datatype Attempt = Raised | Returned(result: SpecialistResult)

  /** Everything the conductor calls, as far as it can observe it. */
  datatype World = World(
    personaLoads: bool,
    approves: string -> bool,             // auto-approval of delegate.<specialist>
    setupRaises: nat -> bool,             // building the specialist task for sub-task i
    registered: string -> bool,
    attempt: (nat, nat) -> Attempt)       // sub-task, attempt

  datatype Insight = Insight(title: string, confidence: real, speculative: bool)

  datatype Synthesis = Synthesis(
    content: seq<string>,
    findings: seq<Finding>,
    insights: seq<Insight>,
    specialistCount: nat,
    successCount: nat,
    totalConfidence: real,
    partial: bool)

  datatype Status = Completed | Blocked | Failed

  datatype TaskResult = TaskResult(
    status: Status,
    blockedOn: Option<string>,
    synthesis: Option<Synthesis>,
    costTotal: real,
    tokensTotal: real)

  // -----------------------------------------------------------------------------------------
  // Planning

  /** _select_specialist */
  function SelectSpecialist(taskType: string): (s: string) {
    if taskType in {"research", "analysis", "synthesis", "ingestion"} then taskType else "research"
  }

  predicate Usable(item: RawItem) {
    item.Item? && item.specialist.Some? && item.prompt.Some?
  }

  function Validated(items: seq<RawItem>): (plan: seq<SubTask>) {
    if items == [] then []
    else
      var last := items[|items| - 1];
      Validated(items[..|items| - 1])
      + (if Usable(last) then [SubTask(last.specialist.value, last.prompt.value)] else [])
  }

  function Plan(reply: PlannerReply, taskType: string, prompt: string): (plan: seq<SubTask>)
    ensures plan != []
  {
    if reply.Parsed? && Validated(reply.items) != [] then Validated(reply.items)
    else [SubTask(SelectSpecialist(taskType), prompt)]
  }

  lemma {:induction false} ValidatedKeepsUsable(items: seq<RawItem>, t: SubTask)
    ensures t in Validated(items) <==> Item(Some(t.specialist), Some(t.prompt)) in items
  {
    if items != [] {
      ValidatedKeepsUsable(items[..|items| - 1], t);
      assert items == items[..|items| - 1] + [items[|items| - 1]];
    }
  }

  /** The fallback is taken exactly when the model's reply holds no usable item. */
  lemma FallbackExactly(reply: PlannerReply, taskType: string, prompt: string)
    ensures Plan(reply, taskType, prompt) != [SubTask(SelectSpecialist(taskType), prompt)]
        ==> reply.Parsed? && exists i :: 0 <= i < |reply.items| && Usable(reply.items[i])
    ensures reply.Parsed? && (exists i :: 0 <= i < |reply.items| && Usable(reply.items[i]))
        ==> forall t :: t in Plan(reply, taskType, prompt) <==> Item(Some(t.specialist), Some(t.prompt)) in reply.items
  {
    if reply.Parsed? {
      forall t ensures t in Validated(reply.items) <==> Item(Some(t.specialist), Some(t.prompt)) in reply.items {
        ValidatedKeepsUsable(reply.items, t);
      }
      if i :| 0 <= i < |reply.items| && Usable(reply.items[i]) {
        assert SubTask(reply.items[i].specialist.value, reply.items[i].prompt.value) in Validated(reply.items);
      }
      if Validated(reply.items) != [] {
        var t := Validated(reply.items)[0];
        var i :| 0 <= i < |reply.items| && reply.items[i] == Item(Some(t.specialist), Some(t.prompt));
        assert Usable(reply.items[i]);
      }
    }
  }

  /** The plan keeps the order and the number of the usable items... */
  lemma {:induction false} ValidatedConcat(a: seq<RawItem>, b: seq<RawItem>)
    ensures Validated(a + b) == Validated(a) + Validated(b)
    decreases |b|
  {
    if b == [] {
      assert a + b == a;
    } else {
      ValidatedConcat(a, b[..|b| - 1]);
      assert (a + b)[..|a + b| - 1] == a + b[..|b| - 1];
    }
  }

  /** ... each of which becomes its own sub-task; and without one, the task goes whole to the
      specialist named after its type, or else to research. */
  lemma {:induction false} PlansOfOne(item: RawItem, taskType: string, prompt: string)
    ensures Validated([item]) == if item.Item? && item.specialist.Some? && item.prompt.Some?
                                 then [SubTask(item.specialist.value, item.prompt.value)] else []
    ensures forall reply: PlannerReply | !reply.Parsed? || reply.items == [] ::
              Plan(reply, taskType, prompt)
              == [SubTask(if taskType in {"analysis", "synthesis", "ingestion"} then taskType else "research", prompt)]
  {
    assert [item][..0] == [];
  }

  // -----------------------------------------------------------------------------------------
  // Delegation

  function AttemptResult(w: World, specialist: string, i: nat, k: nat): (r: SpecialistResult) {
    if w.registered(specialist) && w.attempt(i, k).Returned? then w.attempt(i, k).result else EXCEPTION_RESULT
  }

  /** How many attempts sub-task i takes: up to its first success, at most MAX_RETRIES + 1. */
  function Tries(w: World, specialist: string, i: nat, k: nat := 0): (n: nat)
    requires k <= MAX_RETRIES
    ensures k < n <= MAX_RETRIES + 1
    ensures forall j :: k <= j < n - 1 ==> !AttemptResult(w, specialist, i, j).success
    ensures n <= MAX_RETRIES ==> AttemptResult(w, specialist, i, n - 1).success
    decreases MAX_RETRIES - k
  {
    if AttemptResult(w, specialist, i, k).success || k == MAX_RETRIES then k + 1
    else Tries(w, specialist, i, k + 1)
  }

  function Delegated(w: World, plan: seq<SubTask>, i: nat): (r: SpecialistResult)
    requires i < |plan|
  {
    AttemptResult(w, plan[i].specialist, i, Tries(w, plan[i].specialist, i) - 1)
  }

  /** Attempt k of sub-task i is the last one made, and r its answer: those before it raised or did not
      succeed, it is the third unless it succeeds, and one that raises answers empty-handed. */
  predicate AnsweredBy(w: World, i: nat, k: nat, r: SpecialistResult) {
    && k <= 2
    && (forall j: nat | j < k :: w.attempt(i, j).Raised? || !w.attempt(i, j).result.success)
    && (k < 2 ==> w.attempt(i, k).Returned? && w.attempt(i, k).result.success)
    && r == if w.attempt(i, k).Raised? then SpecialistResult(false, [], "", 0.0, Absent, Absent, Absent) else w.attempt(i, k).result
  }

  /** A specialist that is not registered fails empty-handed. Any other is tried three times at most,
      up to its first success, and the last attempt answers. */
  lemma {:induction false} DelegatedMeaning(w: World, plan: seq<SubTask>, i: nat)
    requires i < |plan|
    ensures if w.registered(plan[i].specialist) then exists k: nat :: AnsweredBy(w, i, k, Delegated(w, plan, i))
            else Delegated(w, plan, i) == SpecialistResult(false, [], "", 0.0, Absent, Absent, Absent)
  {
    hide Tries;
    var specialist := plan[i].specialist;
    var k := Tries(w, specialist, i) - 1;
    if w.registered(specialist) {
      forall j: nat ensures AttemptResult(w, specialist, i, j)
                            == if w.attempt(i, j).Raised? then EXCEPTION_RESULT else w.attempt(i, j).result {
      }
      forall j: nat | j < k ensures w.attempt(i, j).Raised? || !w.attempt(i, j).result.success {
        assert !AttemptResult(w, specialist, i, j).success;
      }
      assert AnsweredBy(w, i, k, Delegated(w, plan, i));
    }
  }

  function Results(w: World, plan: seq<SubTask>, n: nat): (rs: seq<SpecialistResult>)
    requires n <= |plan|
    ensures |rs| == n && forall i :: 0 <= i < n ==> rs[i] == Delegated(w, plan, i)
  {
    if n == 0 then [] else Results(w, plan, n - 1) + [Delegated(w, plan, n - 1)]
  }

  /** What a run does that matters outside it, in order. */
  datatype Event = GateChecked(i: nat, approved: bool) | Executed(i: nat, k: nat)

  /** Specialist executions for sub-task i, attempt by attempt. */
  function Executions(w: World, plan: seq<SubTask>, i: nat, tries: nat): (log: seq<Event>)
    requires i < |plan|
  {
    if w.registered(plan[i].specialist) then seq(tries, k requires 0 <= k < tries => Executed(i, k)) else []
  }

  function TaskLog(w: World, plan: seq<SubTask>, i: nat): (log: seq<Event>)
    requires i < |plan|
  {
    [GateChecked(i, w.approves(plan[i].specialist))] + Executions(w, plan, i, Tries(w, plan[i].specialist, i))
  }

  function DelegationLog(w: World, plan: seq<SubTask>, n: nat): (log: seq<Event>)
    requires n <= |plan|
  {
    if n == 0 then [] else DelegationLog(w, plan, n - 1) + TaskLog(w, plan, n - 1)
  }

  // -----------------------------------------------------------------------------------------
  // Where the loop leaves

  datatype Exit =
    | Finished
    | BlockedAt(i: nat)
    | SetupRaised(i: nat)
    | CostRaised(i: nat)
    | TokensRaised(i: nat)

  function ExitFrom(w: World, plan: seq<SubTask>, i: nat): (e: Exit)
    requires i <= |plan|
    ensures !e.Finished? ==> i <= e.i < |plan|
    decreases |plan| - i
  {
    if i == |plan| then Finished
    else if !w.approves(plan[i].specialist) then BlockedAt(i)
    else if w.setupRaises(i) then SetupRaised(i)
    else if Delegated(w, plan, i).cost.NotNumeric? then CostRaised(i)
    else if TokenEntry(Delegated(w, plan, i)).NotNumeric? then TokensRaised(i)
    else ExitFrom(w, plan, i + 1)
  }

  /** Sub-tasks delegated by then. */
  function DelegatedCount(e: Exit, plan: seq<SubTask>): (n: nat) {
    match e
    case Finished => |plan|
    case BlockedAt(i) => i
    case SetupRaised(i) => i
    case CostRaised(i) => i + 1
    case TokensRaised(i) => i + 1
  }

  /** The log of a run left at e: a gate that blocks, or that is passed in vain, is its last entry. */
  function RunLog(w: World, plan: seq<SubTask>, e: Exit): (log: seq<Event>)
    requires !e.Finished? ==> e.i < |plan|
  {
    DelegationLog(w, plan, DelegatedCount(e, plan))
    + if e.BlockedAt? || e.SetupRaised? then [GateChecked(e.i, w.approves(plan[e.i].specialist))] else []
  }

  function CostOf(rs: seq<SpecialistResult>): (total: real) {
    if rs == [] then 0.0 else CostOf(rs[..|rs| - 1]) + Amount(rs[|rs| - 1].cost)
  }

  function TokensOf(rs: seq<SpecialistResult>): (total: real) {
    if rs == [] then 0.0 else TokensOf(rs[..|rs| - 1]) + Amount(TokenEntry(rs[|rs| - 1]))
  }

  lemma TotalsAppend(rs: seq<SpecialistResult>, r: SpecialistResult)
    ensures CostOf(rs + [r]) == CostOf(rs) + Amount(r.cost)
    ensures TokensOf(rs + [r]) == TokensOf(rs) + Amount(TokenEntry(r))
  {
    assert (rs + [r])[..|rs|] == rs;
  }

  lemma TotalsOfNone()
    ensures CostOf([]) == 0.0 && TokensOf([]) == 0.0
  {
  }

  // -----------------------------------------------------------------------------------------
  // Synthesis

  /** At least 0.7 is an insight, below 0.3 a speculative one, and in between nothing. */
  function Classify(f: Finding): (r: seq<Insight>) {
    var c := Amount(f.confidence);
    if c >= 0.7 then [Insight(f.title, c, false)]
    else if c < 0.3 then [Insight(f.title, c, true)]
    else []
  }

  function InsightsOf(fs: seq<Finding>): (r: seq<Insight>) {
    if fs == [] then [] else InsightsOf(fs[..|fs| - 1]) + Classify(fs[|fs| - 1])
  }

  function FindingsOf(rs: seq<SpecialistResult>): (r: seq<Finding>) {
    if rs == [] then [] else FindingsOf(rs[..|rs| - 1]) + rs[|rs| - 1].findings
  }

  function ContentOf(rs: seq<SpecialistResult>): (r: seq<string>) {
    if rs == [] then []
    else ContentOf(rs[..|rs| - 1]) + (if rs[|rs| - 1].content != "" then [rs[|rs| - 1].content] else [])
  }

  function SuccessesOf(rs: seq<SpecialistResult>): (n: nat)
    ensures n <= |rs|
  {
    if rs == [] then 0 else SuccessesOf(rs[..|rs| - 1]) + (if rs[|rs| - 1].success then 1 else 0)
  }

  function ConfidenceOf(rs: seq<SpecialistResult>): (total: real) {
    if rs == [] then 0.0 else ConfidenceOf(rs[..|rs| - 1]) + rs[|rs| - 1].confidence
  }

  predicate Comparable(fs: seq<Finding>) {
    forall i :: 0 <= i < |fs| ==> !fs[i].confidence.NotNumeric?
  }

  /** None when a comparison raises. */
  function SynthesisOf(rs: seq<SpecialistResult>): (s: Option<Synthesis>) {
    if !Comparable(FindingsOf(rs)) then None
    else Some(Synthesis(ContentOf(rs), FindingsOf(rs), InsightsOf(FindingsOf(rs)), |rs|, SuccessesOf(rs),
                        if rs == [] then 0.0 else ConfidenceOf(rs) / |rs| as real,
                        SuccessesOf(rs) < |rs|))
  }

  lemma AppendInit<T>(a: seq<T>, b: seq<T>)
    requires b != []
    ensures (a + b)[..|a + b| - 1] == a + b[..|b| - 1] && (a + b)[|a + b| - 1] == b[|b| - 1]
  {
  }

  lemma Associates<T>(x: seq<T>, y: seq<T>, z: seq<T>)
    ensures (x + y) + z == x + (y + z)
  {
  }

  lemma {:induction false} ContentConcat(a: seq<SpecialistResult>, b: seq<SpecialistResult>)
    ensures ContentOf(a + b) == ContentOf(a) + ContentOf(b)
    decreases |b|
  {
    if b == [] {
      assert a + b == a;
    } else {
      var init, last := b[..|b| - 1], b[|b| - 1];
      var own := if last.content != "" then [last.content] else [];
      ContentConcat(a, init);
      AppendInit(a, b);
      assert ContentOf(a + b) == ContentOf(a + init) + own && ContentOf(b) == ContentOf(init) + own;
      hide *;
      Associates(ContentOf(a), ContentOf(init), own);
    }
  }

  lemma {:induction false} FindingsConcat(a: seq<SpecialistResult>, b: seq<SpecialistResult>)
    ensures FindingsOf(a + b) == FindingsOf(a) + FindingsOf(b)
    decreases |b|
  {
    if b == [] {
      assert a + b == a;
    } else {
      var init, last := b[..|b| - 1], b[|b| - 1];
      FindingsConcat(a, init);
      AppendInit(a, b);
      assert FindingsOf(a + b) == FindingsOf(a + init) + last.findings && FindingsOf(b) == FindingsOf(init) + last.findings;
      hide *;
      Associates(FindingsOf(a), FindingsOf(init), last.findings);
    }
  }

  lemma {:induction false} CountsConcat(a: seq<SpecialistResult>, b: seq<SpecialistResult>)
    ensures SuccessesOf(a + b) == SuccessesOf(a) + SuccessesOf(b)
    ensures ConfidenceOf(a + b) == ConfidenceOf(a) + ConfidenceOf(b)
    decreases |b|
  {
    if b == [] {
      assert a + b == a;
    } else {
      CountsConcat(a, b[..|b| - 1]);
      AppendInit(a, b);
    }
  }

  lemma {:induction false} TotalsConcat(a: seq<SpecialistResult>, b: seq<SpecialistResult>)
    ensures CostOf(a + b) == CostOf(a) + CostOf(b) && TokensOf(a + b) == TokensOf(a) + TokensOf(b)
    decreases |b|
  {
    hide Amount, TokenEntry;
    if b == [] {
      assert a + b == a;
    } else {
      TotalsConcat(a, b[..|b| - 1]);
      AppendInit(a, b);
    }
  }

  /** Results add up: what a longer list of results says is what its parts say, one after the other. */
  lemma ResultsConcat(a: seq<SpecialistResult>, b: seq<SpecialistResult>)
    ensures ContentOf(a + b) == ContentOf(a) + ContentOf(b)
    ensures FindingsOf(a + b) == FindingsOf(a) + FindingsOf(b)
    ensures SuccessesOf(a + b) == SuccessesOf(a) + SuccessesOf(b)
    ensures ConfidenceOf(a + b) == ConfidenceOf(a) + ConfidenceOf(b)
    ensures CostOf(a + b) == CostOf(a) + CostOf(b) && TokensOf(a + b) == TokensOf(a) + TokensOf(b)
  {
    hide *;
    ContentConcat(a, b);
    FindingsConcat(a, b);
    CountsConcat(a, b);
    TotalsConcat(a, b);
  }

  /** And what one result says. */
  lemma {:induction false} ResultsOfOne(r: SpecialistResult)
    ensures ContentOf([r]) == (if r.content == "" then [] else [r.content]) && FindingsOf([r]) == r.findings
    ensures SuccessesOf([r]) == (if r.success then 1 else 0) && ConfidenceOf([r]) == r.confidence
    ensures CostOf([r]) == if r.cost.Number? then r.cost.n else 0.0
    ensures TokensOf([r]) == if r.tokensUsed.Number? then r.tokensUsed.n
                             else if r.tokensUsed.Absent? && r.tokens.Number? then r.tokens.n else 0.0
  {
    assert [r][..0] == [];
  }

  /** Findings are judged one by one, in order: an insight from 0.7 up, a speculative one below 0.3,
      a missing confidence counting as 0. */
  lemma {:induction false} InsightsConcat(a: seq<Finding>, b: seq<Finding>)
    ensures InsightsOf(a + b) == InsightsOf(a) + InsightsOf(b)
    decreases |b|
  {
    hide Classify;
    if b == [] {
      assert a + b == a;
    } else {
      var init, last := b[..|b| - 1], b[|b| - 1];
      InsightsConcat(a, init);
      AppendInit(a, b);
      assert InsightsOf(a + b) == InsightsOf(a + init) + Classify(last);
      assert InsightsOf(b) == InsightsOf(init) + Classify(last);
      hide *;
      Associates(InsightsOf(a), InsightsOf(init), Classify(last));
    }
  }

  lemma {:induction false} InsightsOfOne(f: Finding)
    ensures InsightsOf([f]) == var c := if f.confidence.Number? then f.confidence.n else 0.0;
                               if c >= 0.7 then [Insight(f.title, c, false)]
                               else if c < 0.3 then [Insight(f.title, c, true)] else []
  {
    assert [f][..0] == [];
  }

  /** A synthesis is made of these, exactly when every confidence is absent or a number; its total
      confidence is the mean over the results. */
  lemma SynthesisParts(rs: seq<SpecialistResult>)
    ensures SynthesisOf(rs).Some? <==> forall f :: f in FindingsOf(rs) ==> f.confidence != NotNumeric
    ensures SynthesisOf(rs).Some? ==>
              var s := SynthesisOf(rs).value;
              && s.content == ContentOf(rs) && s.findings == FindingsOf(rs) && s.insights == InsightsOf(s.findings)
              && s.specialistCount == |rs| && s.successCount == SuccessesOf(rs)
              && s.totalConfidence * |rs| as real == ConfidenceOf(rs) && (rs == [] ==> s.totalConfidence == 0.0)
              && (s.partial <==> s.successCount != s.specialistCount)
  {
    ComparableMembers(FindingsOf(rs));
    NoConfidence();
    hide ContentOf, FindingsOf, InsightsOf, SuccessesOf, ConfidenceOf, Comparable;
    if rs != [] {
      Quotient(ConfidenceOf(rs), |rs| as real);
    }
  }

  lemma ComparableMembers(fs: seq<Finding>)
    ensures Comparable(fs) <==> forall f :: f in fs ==> f.confidence != NotNumeric
  {
    if !Comparable(fs) {
      var i :| 0 <= i < |fs| && fs[i].confidence.NotNumeric?;
      assert fs[i] in fs;
    }
  }

  lemma Quotient(x: real, n: real)
    requires n != 0.0
    ensures x / n * n == x
  {
  }

  lemma NoConfidence()
    ensures ConfidenceOf([]) == 0.0
  {
  }

  /** `partial` is set exactly when some delegated result failed. */
  lemma {:induction false} PartialExactly(rs: seq<SpecialistResult>)
    ensures SuccessesOf(rs) < |rs| <==> exists i :: 0 <= i < |rs| && !rs[i].success
  {
    if rs != [] {
      var init := rs[..|rs| - 1];
      PartialExactly(init);
      if i :| 0 <= i < |init| && !init[i].success {
        assert !rs[i].success;
      }
      if i :| 0 <= i < |rs| && !rs[i].success {
        if i < |init| { assert !init[i].success; }
      }
    }
  }

  /** No finding is lost or invented: they are those of the results, in order. */
  lemma {:induction false} FindingsAreTheResults(rs: seq<SpecialistResult>, f: Finding)
    ensures f in FindingsOf(rs) <==> exists i :: 0 <= i < |rs| && f in rs[i].findings
  {
    if rs != [] {
      var init := rs[..|rs| - 1];
      FindingsAreTheResults(init, f);
      if i :| 0 <= i < |init| && f in init[i].findings {
        assert f in rs[i].findings;
      }
      if i :| 0 <= i < |rs| && f in rs[i].findings {
        if i < |init| { assert f in init[i].findings; }
      }
    }
  }

  function FailedResult(rs: seq<SpecialistResult>, cost: real, tokens: real): (r: TaskResult) {
    TaskResult(Failed, None,
               if rs == [] || SynthesisOf(rs).None? then None
               else Some(SynthesisOf(rs).value.(partial := true)),
               cost, tokens)
  }

  /** The running totals when the loop is left: `+=` raises before it assigns. */
  function CostAt(w: World, plan: seq<SubTask>, e: Exit): (total: real)
    requires DelegatedCount(e, plan) <= |plan|
  {
    CostOf(Results(w, plan, if e.CostRaised? then e.i else DelegatedCount(e, plan)))
  }

  function TokensAt(w: World, plan: seq<SubTask>, e: Exit): (total: real)
    requires DelegatedCount(e, plan) <= |plan|
  {
    TokensOf(Results(w, plan, if e.CostRaised? || e.TokensRaised? then e.i else DelegatedCount(e, plan)))
  }

  /** The result a run of the loop leads to. */
  function ResultOf(w: World, plan: seq<SubTask>): (r: TaskResult) {
    var e := ExitFrom(w, plan, 0);
    var rs := Results(w, plan, DelegatedCount(e, plan));
    var (cost, tokens) := (CostAt(w, plan, e), TokensAt(w, plan, e));
    if e.BlockedAt? then TaskResult(Blocked, Some(plan[e.i].specialist), None, cost, tokens)
    else if e.Finished? && SynthesisOf(rs).Some? then TaskResult(Completed, None, SynthesisOf(rs), cost, tokens)
    else FailedResult(rs, cost, tokens)
  }

  lemma LogGrows(w: World, plan: seq<SubTask>)
    ensures DelegationLog(w, plan, 0) == []
    ensures forall i: nat | i < |plan| ::
              DelegationLog(w, plan, i + 1)
              == DelegationLog(w, plan, i) + [GateChecked(i, w.approves(plan[i].specialist))]
                 + Executions(w, plan, i, Tries(w, plan[i].specialist, i))
  {
    hide Executions, Tries;
  }

  // -----------------------------------------------------------------------------------------
  // The running conductor

  class Conductor {
    const world: World
    var log: seq<Event>

    constructor (w: World)
      ensures world == w && log == []
    {
      world := w;
      log := [];
    }

    method PlanTask(reply: PlannerReply, taskType: string, prompt: string) returns (plan: seq<SubTask>)
      ensures plan == Plan(reply, taskType, prompt)
    {
      if reply.Parsed? {
        var validated: seq<SubTask> := [];
        var j := 0;
        while j < |reply.items|
          invariant 0 <= j <= |reply.items| && validated == Validated(reply.items[..j])
        {
          assert reply.items[..j + 1][..j] == reply.items[..j];
          var item := reply.items[j];
          if Usable(item) {
            validated := validated + [SubTask(item.specialist.value, item.prompt.value)];
          }
          j := j + 1;
        }
        assert reply.items[..j] == reply.items;
        if validated != [] { return validated; }
      }
      plan := [SubTask(SelectSpecialist(taskType), prompt)];
    }

    /** _delegate_with_retry, around _delegate_to_specialist. */
    method DelegateWithRetry(plan: seq<SubTask>, i: nat) returns (result: SpecialistResult)
      requires i < |plan|
      modifies this`log
      ensures result == Delegated(world, plan, i)
      ensures log == old(log) + Executions(world, plan, i, Tries(world, plan[i].specialist, i))
    {
      var specialist := plan[i].specialist;
      var lastResult := EXCEPTION_RESULT;
      var attempt := 0;
      assert Executions(world, plan, i, 0) == [];
      while attempt < MAX_RETRIES + 1
        invariant 0 <= attempt <= MAX_RETRIES + 1
        invariant forall k :: 0 <= k < attempt ==> !AttemptResult(world, specialist, i, k).success
        invariant attempt > 0 ==> lastResult == AttemptResult(world, specialist, i, attempt - 1)
        invariant log == old(log) + Executions(world, plan, i, attempt)
      {
        if world.registered(specialist) {
          log := log + [Executed(i, attempt)];
          assert Executions(world, plan, i, attempt + 1) == Executions(world, plan, i, attempt) + [Executed(i, attempt)];
          match world.attempt(i, attempt)
          case Returned(r) =>
            if r.success {
              return r;
            }
            lastResult := r;
          case Raised =>
            lastResult := EXCEPTION_RESULT;
        } else {
          lastResult := EXCEPTION_RESULT;
        }
        attempt := attempt + 1;
      }
      return lastResult;
    }

    /** _synthesize_results */
    method SynthesizeResults(results: seq<SpecialistResult>) returns (synthesis: Option<Synthesis>)
      ensures synthesis == SynthesisOf(results)
    {
      var findings: seq<Finding>, content: seq<string>, successes, confidence := [], [], 0, 0.0;
      var j := 0;
      while j < |results|
        invariant 0 <= j <= |results|
        invariant findings == FindingsOf(results[..j]) && content == ContentOf(results[..j])
        invariant successes == SuccessesOf(results[..j]) && confidence == ConfidenceOf(results[..j])
      {
        assert results[..j + 1][..j] == results[..j];
        findings := findings + results[j].findings;
        if results[j].content != "" { content := content + [results[j].content]; }
        if results[j].success { successes := successes + 1; }
        confidence := confidence + results[j].confidence;
        j := j + 1;
      }
      assert results[..j] == results;
      var insights := ExtractInsights(findings);
      if insights.None? { return None; }
      var average := if results == [] then 0.0 else confidence / |results| as real;
      return Some(Synthesis(content, findings, insights.value, |results|, successes, average, successes < |results|));
    }

    /** None when comparing a confidence raises. */
    method ExtractInsights(findings: seq<Finding>) returns (r: Option<seq<Insight>>)
      ensures r == if Comparable(findings) then Some(InsightsOf(findings)) else None
    {
      var insights: seq<Insight> := [];
      var k := 0;
      while k < |findings|
        invariant 0 <= k <= |findings|
        invariant Comparable(findings[..k]) && insights == InsightsOf(findings[..k])
      {
        assert findings[..k + 1][..k] == findings[..k];
        if findings[k].confidence.NotNumeric? { return None; }
        var conf := Amount(findings[k].confidence);
        if conf >= 0.7 {
          insights := insights + [Insight(findings[k].title, conf, false)];
        } else if conf < 0.3 {
          insights := insights + [Insight(findings[k].title, conf, true)];
        }
        k := k + 1;
      }
      assert findings[..k] == findings;
      return Some(insights);
    }

    method FailedExit(results: seq<SpecialistResult>, cost: real, tokens: real) returns (r: TaskResult)
      ensures r == FailedResult(results, cost, tokens)
    {
      var partial: Option<Synthesis> := None;
      if results != [] {
        partial := SynthesizeResults(results);
        if partial.Some? { partial := Some(partial.value.(partial := true)); }
      }
      r := TaskResult(Failed, None, partial, cost, tokens);
    }

    /** The delegation loop of execute_task, up to where it is left. */
    method DelegatePlan(plan: seq<SubTask>)
      returns (e: Exit, partial: seq<SpecialistResult>, cost: real, tokens: real)
      requires log == []
      modifies this
      ensures e == ExitFrom(world, plan, 0) && partial == Results(world, plan, DelegatedCount(e, plan))
      ensures cost == CostAt(world, plan, e) && tokens == TokensAt(world, plan, e)
      ensures log == RunLog(world, plan, e)
    {
      hide Delegated, Executions, Tries, TokenEntry, Amount, CostOf, TokensOf, DelegationLog;
      LogGrows(world, plan);
      TotalsOfNone();
      cost, tokens, partial := 0.0, 0.0, [];
      var i := 0;
      while i < |plan|
        invariant 0 <= i <= |plan|
        invariant ExitFrom(world, plan, 0) == ExitFrom(world, plan, i)
        invariant partial == Results(world, plan, i)
        invariant cost == CostOf(partial) && tokens == TokensOf(partial)
        invariant log == DelegationLog(world, plan, i)
      {
        log := log + [GateChecked(i, world.approves(plan[i].specialist))];
        if !world.approves(plan[i].specialist) {
          e := BlockedAt(i);
          return;
        }
        if world.setupRaises(i) {
          e := SetupRaised(i);
          return;
        }
        var result := DelegateWithRetry(plan, i);
        assert log == DelegationLog(world, plan, i + 1);
        TotalsAppend(partial, result);
        partial := partial + [result];
        if result.cost.NotNumeric? {
          e := CostRaised(i);
          return;
        }
        cost := cost + Amount(result.cost);
        if TokenEntry(result).NotNumeric? {
          e := TokensRaised(i);
          return;
        }
        tokens := tokens + Amount(TokenEntry(result));
        i := i + 1;
      }
      e := Finished;
    }

    method ExecuteTask(reply: PlannerReply, taskType: string, prompt: string) returns (r: TaskResult)
      requires log == []
      modifies this
      ensures !world.personaLoads ==> r == FailedResult([], 0.0, 0.0) && log == []
      ensures world.personaLoads ==>
        var plan := Plan(reply, taskType, prompt);
        var e := ExitFrom(world, plan, 0);
        && r == ResultOf(world, plan)
        && log == RunLog(world, plan, e)
    {
      hide Delegated, Plan, SynthesisOf, FailedResult, RunLog, Results, ExitFrom, CostAt, TokensAt;
      if !world.personaLoads {
        r := FailedExit([], 0.0, 0.0);
        return;
      }
      var plan := PlanTask(reply, taskType, prompt);
      var e, partial, cost, tokens := DelegatePlan(plan);
      if e.BlockedAt? {
        return TaskResult(Blocked, Some(plan[e.i].specialist), None, cost, tokens);
      }
      var synthesis := None;
      if e.Finished? {
        synthesis := SynthesizeResults(partial);
      }
      if synthesis.None? {
        r := FailedExit(partial, cost, tokens);
      } else {
        r := TaskResult(Completed, None, synthesis, cost, tokens);
      }
    }
  }

  // -----------------------------------------------------------------------------------------
  // Main results

  lemma {:induction false} GatesPassed(w: World, plan: seq<SubTask>, i: nat, j: nat)
    requires i <= j < |plan| && (ExitFrom(w, plan, i).Finished? || j < ExitFrom(w, plan, i).i)
    ensures w.approves(plan[j].specialist) && !w.setupRaises(j)
    ensures !Delegated(w, plan, j).cost.NotNumeric? && !TokenEntry(Delegated(w, plan, j)).NotNumeric?
    decreases |plan| - i
  {
    if i < j {
      GatesPassed(w, plan, i + 1, j);
    }
  }

  lemma {:induction false} ExitReason(w: World, plan: seq<SubTask>, i: nat)
    requires i <= |plan| && !ExitFrom(w, plan, i).Finished?
    ensures var e := ExitFrom(w, plan, i);
            && (e.BlockedAt? <==> !w.approves(plan[e.i].specialist))
            && (e.CostRaised? ==> Delegated(w, plan, e.i).cost.NotNumeric?)
            && (e.TokensRaised? ==> !Delegated(w, plan, e.i).cost.NotNumeric? && TokenEntry(Delegated(w, plan, e.i)).NotNumeric?)
    decreases |plan| - i
  {
    if i < |plan| && w.approves(plan[i].specialist) && !w.setupRaises(i)
       && !Delegated(w, plan, i).cost.NotNumeric? && !TokenEntry(Delegated(w, plan, i)).NotNumeric? {
      ExitReason(w, plan, i + 1);
    }
  }

  /** Entry p is an execution only after the gates of sub-tasks 0..i were consulted, and attempt k
      comes right after attempt k - 1 of the same sub-task. */
  ghost predicate InOrder(w: World, plan: seq<SubTask>, log: seq<Event>, p: nat)
    requires p < |log|
  {
    log[p].Executed? ==>
      && log[p].i < |plan| && w.registered(plan[log[p].i].specialist)
      && log[p].k < Tries(w, plan[log[p].i].specialist, log[p].i)
      && (forall j | 0 <= j <= log[p].i :: GateChecked(j, w.approves(plan[j].specialist)) in log[..p])
      && (log[p].k > 0 ==> p > 0 && log[p - 1] == Executed(log[p].i, log[p].k - 1))
  }

  lemma {:induction false} DelegationLogMembers(w: World, plan: seq<SubTask>, n: nat, x: Event)
    requires n <= |plan|
    ensures x in DelegationLog(w, plan, n) <==>
              && x.i < n
              && if x.GateChecked? then x.approved == w.approves(plan[x.i].specialist)
                 else w.registered(plan[x.i].specialist) && x.k < Tries(w, plan[x.i].specialist, x.i)
  {
    hide Tries;
    if n > 0 {
      DelegationLogMembers(w, plan, n - 1, x);
      TaskLogMembers(w, plan, n - 1, x);
      hide TaskLog;
    }
  }

  lemma TaskLogMembers(w: World, plan: seq<SubTask>, i: nat, x: Event)
    requires i < |plan|
    ensures x in TaskLog(w, plan, i) <==>
              && x.i == i
              && if x.GateChecked? then x.approved == w.approves(plan[i].specialist)
                 else w.registered(plan[i].specialist) && x.k < Tries(w, plan[i].specialist, i)
  {
    hide Tries;
    if x.Executed? && x.i == i && w.registered(plan[i].specialist) && x.k < Tries(w, plan[i].specialist, i) {
      assert TaskLog(w, plan, i)[x.k + 1] == x;
    }
  }

  lemma {:induction false} TriesExactly(w: World, specialist: string, i: nat, from: nat, k: nat)
    requires from <= k && from <= MAX_RETRIES
    ensures k < Tries(w, specialist, i, from) <==>
              k <= MAX_RETRIES && forall a :: from <= a < k ==> !AttemptResult(w, specialist, i, a).success
    decreases MAX_RETRIES - from
  {
    hide AttemptResult;
    if !AttemptResult(w, specialist, i, from).success && from < MAX_RETRIES && from < k {
      TriesExactly(w, specialist, i, from + 1, k);
    }
  }

  lemma {:induction false} GatesInLog(w: World, plan: seq<SubTask>, n: nat, j: nat)
    requires j < n <= |plan|
    ensures GateChecked(j, w.approves(plan[j].specialist)) in DelegationLog(w, plan, n)
  {
    hide Executions, Tries;
    if j < n - 1 { GatesInLog(w, plan, n - 1, j); }
  }

  lemma TaskLogEntry(w: World, plan: seq<SubTask>, i: nat, q: nat)
    requires i < |plan| && q < |TaskLog(w, plan, i)|
    ensures TaskLog(w, plan, i)[q]
         == if q == 0 then GateChecked(i, w.approves(plan[i].specialist)) else Executed(i, q - 1)
    ensures q > 0 ==> w.registered(plan[i].specialist) && q - 1 < Tries(w, plan[i].specialist, i)
  {
    hide Tries;
  }

  lemma {:induction false} LogInOrder(w: World, plan: seq<SubTask>, n: nat, p: nat)
    requires n <= |plan| && p < |DelegationLog(w, plan, n)|
    ensures InOrder(w, plan, DelegationLog(w, plan, n), p)
  {
    hide Tries, TaskLog, InOrder;
    var log := DelegationLog(w, plan, n);
    var before, last := DelegationLog(w, plan, n - 1), TaskLog(w, plan, n - 1);
    assert log == before + last;
    if p < |before| {
      LogInOrder(w, plan, n - 1, p);
      InOrderExtends(w, plan, before, last, p);
    } else {
      forall j | 0 <= j < n - 1 ensures GateChecked(j, w.approves(plan[j].specialist)) in before {
        GatesInLog(w, plan, n - 1, j);
      }
      TaskInOrder(w, plan, n - 1, before, p - |before|);
    }
  }

  lemma InOrderExtends(w: World, plan: seq<SubTask>, before: seq<Event>, more: seq<Event>, p: nat)
    requires p < |before| && InOrder(w, plan, before, p)
    ensures InOrder(w, plan, before + more, p)
  {
    hide Tries;
    assert (before + more)[..p] == before[..p];
  }

  lemma {:induction false} TaskInOrder(w: World, plan: seq<SubTask>, i: nat, before: seq<Event>, q: nat)
    requires i < |plan| && q < |TaskLog(w, plan, i)|
    requires forall j :: 0 <= j < i ==> GateChecked(j, w.approves(plan[j].specialist)) in before
    ensures InOrder(w, plan, before + TaskLog(w, plan, i), |before| + q)
  {
    TaskLogEntry(w, plan, i, 0);
    TaskLogEntry(w, plan, i, q);
    hide Tries, TaskLog;
    var log := before + TaskLog(w, plan, i);
    if q > 0 {
      TaskLogEntry(w, plan, i, q - 1);
      assert log[..|before| + q] == before + TaskLog(w, plan, i)[..q];
      assert log[|before|] in log[..|before| + q];
    }
  }

  lemma {:induction false} LogEntriesBelow(w: World, plan: seq<SubTask>, n: nat, p: nat)
    requires n <= |plan| && p < |DelegationLog(w, plan, n)|
    ensures DelegationLog(w, plan, n)[p].i < n
  {
    hide Tries;
    if p < |DelegationLog(w, plan, n - 1)| { LogEntriesBelow(w, plan, n - 1, p); }
  }

  lemma {:induction false} DelegationsHaveNoRepeats(w: World, plan: seq<SubTask>, n: nat)
    requires n <= |plan|
    ensures forall a, b :: 0 <= a < b < |DelegationLog(w, plan, n)| ==> DelegationLog(w, plan, n)[a] != DelegationLog(w, plan, n)[b]
  {
    hide Tries;
    if n > 0 {
      DelegationsHaveNoRepeats(w, plan, n - 1);
      var before := DelegationLog(w, plan, n - 1);
      forall a | 0 <= a < |before| ensures before[a].i < n - 1 {
        LogEntriesBelow(w, plan, n - 1, a);
      }
    }
  }

  /** No gate is consulted twice and no attempt executed twice, wherever the run is left. */
  lemma {:induction false} LogHasNoRepeats(w: World, plan: seq<SubTask>, e: Exit)
    requires !e.Finished? ==> e.i < |plan|
    ensures forall a, b :: 0 <= a < b < |RunLog(w, plan, e)| ==> RunLog(w, plan, e)[a] != RunLog(w, plan, e)[b]
  {
    hide DelegationLog;
    var n := DelegatedCount(e, plan);
    DelegationsHaveNoRepeats(w, plan, n);
    forall a | 0 <= a < |DelegationLog(w, plan, n)| ensures DelegationLog(w, plan, n)[a].i < n {
      LogEntriesBelow(w, plan, n, a);
    }
  }

  lemma EarlierTryFailed(w: World, specialist: string, i: nat, k: nat)
    requires k + 1 < Tries(w, specialist, i)
    ensures !AttemptResult(w, specialist, i, k).success
  {
  }

  /** Over any run, each execution is preceded in the log by the approval of every gate up to and
      including its own, and, from the second attempt on, directly by the attempt before it, which
      had not succeeded; attempt numbers stay within the retry limit. */
  lemma {:induction false} NothingRunsUnapproved(w: World, plan: seq<SubTask>, p: nat)
    requires p < |RunLog(w, plan, ExitFrom(w, plan, 0))| && RunLog(w, plan, ExitFrom(w, plan, 0))[p].Executed?
    ensures var log := RunLog(w, plan, ExitFrom(w, plan, 0)); var (i, k) := (log[p].i, log[p].k);
            && i < |plan| && k <= MAX_RETRIES
            && (forall j :: 0 <= j <= i ==> GateChecked(j, true) in log[..p])
            && (k > 0 ==> p > 0 && log[p - 1] == Executed(i, k - 1) && !AttemptResult(w, plan[i].specialist, i, k - 1).success)
  {
    hide Delegated, Tries, ExitFrom, DelegationLog, AttemptResult;
    var e := ExitFrom(w, plan, 0);
    var n := DelegatedCount(e, plan);
    var log := RunLog(w, plan, e);
    var done := DelegationLog(w, plan, n);
    LogInOrder(w, plan, n, p);
    LogEntriesBelow(w, plan, n, p);
    assert log[..p] == done[..p] && log[p] == done[p];
    forall j | 0 <= j <= log[p].i ensures GateChecked(j, true) in log[..p] {
      assert GateChecked(j, w.approves(plan[j].specialist)) in done[..p];
      if e.Finished? || j < e.i { GatesPassed(w, plan, 0, j); } else { ExitReason(w, plan, 0); }
    }
    if log[p].k > 0 { EarlierTryFailed(w, plan[log[p].i].specialist, log[p].i, log[p].k - 1); }
  }

  /** At every exit the cost total is that of everything delegated. */
  lemma CostConserved(w: World, plan: seq<SubTask>)
    ensures ResultOf(w, plan).costTotal == CostOf(Results(w, plan, DelegatedCount(ExitFrom(w, plan, 0), plan)))
  {
    hide Delegated, SynthesisOf, ExitFrom, CostOf, TokensOf, TokenEntry;
    var e := ExitFrom(w, plan, 0);
    if !e.Finished? { ExitReason(w, plan, 0); }
    if e.CostRaised? {
      TotalsAppend(Results(w, plan, e.i), Delegated(w, plan, e.i));
    }
  }

  /** So is the token total, except exactly when the last result's cost raised before its non-zero
      tokens were counted. */
  lemma TokensConserved(w: World, plan: seq<SubTask>)
    ensures var e := ExitFrom(w, plan, 0);
            (ResultOf(w, plan).tokensTotal == TokensOf(Results(w, plan, DelegatedCount(e, plan))))
              <==> (e.CostRaised? ==> Amount(TokenEntry(Delegated(w, plan, e.i))) == 0.0)
  {
    hide Delegated, SynthesisOf, ExitFrom, CostOf, TokensOf, TokenEntry;
    var e := ExitFrom(w, plan, 0);
    if !e.Finished? { ExitReason(w, plan, 0); }
    if e.CostRaised? || e.TokensRaised? {
      TotalsAppend(Results(w, plan, e.i), Delegated(w, plan, e.i));
    }
  }

  const LOSING := SpecialistResult(true, [], "", 0.0, NotNumeric, Number(5.0), Absent)

  /** A run that loses tokens: its one result cost something that is not a number. */
  lemma TokensCanBeLost(w: World)
    requires w.approves("research") && !w.setupRaises(0) && w.registered("research")
    requires w.attempt(0, 0) == Returned(LOSING)
    ensures var plan := [SubTask("research", "q")];
            && ResultOf(w, plan).status.Failed? && ResultOf(w, plan).tokensTotal == 0.0
            && Results(w, plan, 1) == [LOSING] && TokensOf([LOSING]) == 5.0
  {
    hide SynthesisOf;
    var plan := [SubTask("research", "q")];
    assert AttemptResult(w, "research", 0, 0) == LOSING;
    assert Delegated(w, plan, 0) == LOSING;
    assert ExitFrom(w, plan, 0) == CostRaised(0);
    TotalsOfNone();
    TotalsAppend([], LOSING);
    assert [] + [LOSING] == [LOSING];
  }

  predicate RunsClean(w: World, plan: seq<SubTask>, i: nat)
    requires i < |plan|
  {
    && w.approves(plan[i].specialist) && !w.setupRaises(i)
    && !Delegated(w, plan, i).cost.NotNumeric? && !TokenEntry(Delegated(w, plan, i)).NotNumeric?
  }

  /** A task completes exactly when every gate approves, nothing raises, and every entry the
      conductor computes with is numeric. */
  lemma CompletedExactly(w: World, plan: seq<SubTask>)
    ensures ResultOf(w, plan).status.Completed?
       <==> && (forall i :: 0 <= i < |plan| ==> RunsClean(w, plan, i))
            && Comparable(FindingsOf(Results(w, plan, |plan|)))
  {
    hide Delegated, FindingsOf, InsightsOf, ContentOf, ConfidenceOf, SuccessesOf, Comparable, ExitFrom, CostAt, TokensAt;
    if ExitFrom(w, plan, 0).Finished? {
      forall i | 0 <= i < |plan| ensures RunsClean(w, plan, i) {
        GatesPassed(w, plan, 0, i);
      }
    } else {
      StopsForAReason(w, plan, 0);
      assert !RunsClean(w, plan, ExitFrom(w, plan, 0).i);
    }
  }

  lemma {:induction false} CleanUpToExit(w: World, plan: seq<SubTask>, j: nat)
    requires j < |plan| && (ExitFrom(w, plan, 0).Finished? || j < ExitFrom(w, plan, 0).i)
    ensures RunsClean(w, plan, j)
  {
    GatesPassed(w, plan, 0, j);
  }

  /** A task is blocked exactly on the first sub-task whose gate refuses, when everything before it
      ran clean; it then reports that specialist and no synthesis. */
  lemma {:induction false} BlockedExactly(w: World, plan: seq<SubTask>, x: Option<string>)
    ensures ResultOf(w, plan).status == Blocked && ResultOf(w, plan).blockedOn == x
       <==> exists i :: 0 <= i < |plan| && !w.approves(plan[i].specialist) && x == Some(plan[i].specialist)
                        && forall j :: 0 <= j < i ==> RunsClean(w, plan, j)
    ensures ResultOf(w, plan).status == Blocked ==> ResultOf(w, plan).synthesis == None
  {
    hide Delegated, SynthesisOf, CostAt, TokensAt, ExitFrom;
    var e := ExitFrom(w, plan, 0);
    forall j | 0 <= j < |plan| && (e.Finished? || j < e.i) ensures RunsClean(w, plan, j) { CleanUpToExit(w, plan, j); }
    if !e.Finished? { ExitReason(w, plan, 0); StopsForAReason(w, plan, 0); assert !RunsClean(w, plan, e.i); }
    if i :| 0 <= i < |plan| && !w.approves(plan[i].specialist) && x == Some(plan[i].specialist)
            && forall j :: 0 <= j < i ==> RunsClean(w, plan, j) {
      assert !RunsClean(w, plan, i);
      assert !e.Finished? && e.i == i;
    }
  }

  lemma {:induction false} ReachedExactly(w: World, plan: seq<SubTask>, j: nat)
    requires j < |plan|
    ensures (ExitFrom(w, plan, 0).Finished? || j <= ExitFrom(w, plan, 0).i) <==> forall i :: 0 <= i < j ==> RunsClean(w, plan, i)
  {
    var e := ExitFrom(w, plan, 0);
    forall i | 0 <= i < |plan| && (e.Finished? || i < e.i) ensures RunsClean(w, plan, i) { CleanUpToExit(w, plan, i); }
    if !e.Finished? {
      StopsForAReason(w, plan, 0);
      assert !RunsClean(w, plan, e.i);
    }
    hide ExitFrom, RunsClean;
  }

  /** The log holds each gate's own answer, for exactly the sub-tasks before which everything ran
      clean. */
  lemma {:induction false} GateLogged(w: World, plan: seq<SubTask>, j: nat, approved: bool)
    requires j < |plan|
    ensures GateChecked(j, approved) in RunLog(w, plan, ExitFrom(w, plan, 0)) <==>
              approved == w.approves(plan[j].specialist) && forall i :: 0 <= i < j ==> RunsClean(w, plan, i)
  {
    var e := ExitFrom(w, plan, 0);
    DelegationLogMembers(w, plan, DelegatedCount(e, plan), GateChecked(j, approved));
    ReachedExactly(w, plan, j);
    hide ExitFrom, DelegationLog, RunsClean;
  }

  lemma {:induction false} DelegatedExactly(w: World, plan: seq<SubTask>, i: nat)
    requires i < |plan|
    ensures i < DelegatedCount(ExitFrom(w, plan, 0), plan) <==>
              && (forall j :: 0 <= j < i ==> RunsClean(w, plan, j))
              && w.approves(plan[i].specialist) && !w.setupRaises(i)
  {
    var e := ExitFrom(w, plan, 0);
    ReachedExactly(w, plan, i);
    if e.Finished? || i < e.i { GatesPassed(w, plan, 0, i); }
    if !e.Finished? { ExitReason(w, plan, 0); SetupExit(w, plan, 0); }
    hide ExitFrom, RunsClean;
  }

  lemma TriesMeaning(w: World, specialist: string, i: nat, k: nat)
    requires w.registered(specialist)
    ensures k < Tries(w, specialist, i) <==>
              k <= 2 && forall a :: 0 <= a < k ==> w.attempt(i, a).Raised? || !w.attempt(i, a).result.success
  {
    TriesExactly(w, specialist, i, 0, k);
    forall a: nat ensures AttemptResult(w, specialist, i, a).success <==> w.attempt(i, a).Returned? && w.attempt(i, a).result.success {
    }
    hide Tries, AttemptResult;
  }

  /** A specialist is executed for exactly the sub-tasks so reached whose gate approves and whose setup
      does not raise, if it is registered, and for each up to the first success or the third attempt. */
  lemma {:induction false} ExecutionLogged(w: World, plan: seq<SubTask>, i: nat, k: nat)
    requires i < |plan|
    ensures Executed(i, k) in RunLog(w, plan, ExitFrom(w, plan, 0)) <==>
              && (forall j :: 0 <= j < i ==> RunsClean(w, plan, j))
              && w.approves(plan[i].specialist) && !w.setupRaises(i) && w.registered(plan[i].specialist)
              && k <= 2 && forall a :: 0 <= a < k ==> w.attempt(i, a).Raised? || !w.attempt(i, a).result.success
  {
    hide ExitFrom, DelegationLog, RunsClean, Tries;
    var e := ExitFrom(w, plan, 0);
    assert Executed(i, k) in RunLog(w, plan, e) <==> Executed(i, k) in DelegationLog(w, plan, DelegatedCount(e, plan));
    DelegationLogMembers(w, plan, DelegatedCount(e, plan), Executed(i, k));
    DelegatedExactly(w, plan, i);
    if w.registered(plan[i].specialist) { TriesMeaning(w, plan[i].specialist, i, k); }
  }

  lemma {:induction false} CleanRun(w: World, plan: seq<SubTask>)
    requires forall i :: 0 <= i < |plan| ==> RunsClean(w, plan, i)
    ensures ResultOf(w, plan).status == Failed ==> ResultOf(w, plan).synthesis == None
  {
    hide Delegated, FindingsOf, InsightsOf, ContentOf, ConfidenceOf, SuccessesOf, Comparable, ExitFrom, CostAt, TokensAt;
    StopIsUnclean(w, plan);
  }

  lemma StopIsUnclean(w: World, plan: seq<SubTask>)
    ensures !ExitFrom(w, plan, 0).Finished? ==> !RunsClean(w, plan, ExitFrom(w, plan, 0).i)
  {
    if !ExitFrom(w, plan, 0).Finished? { StopsForAReason(w, plan, 0); }
  }

  /** Every other task that does not complete has failed: it names no gate, and what synthesis it
      carries covers some of the results and is marked partial. */
  lemma {:induction false} FailedExactly(w: World, plan: seq<SubTask>)
    ensures var r := ResultOf(w, plan);
            && (r.status == Failed <==>
                  && !((forall i :: 0 <= i < |plan| ==> RunsClean(w, plan, i)) && Comparable(FindingsOf(Results(w, plan, |plan|))))
                  && forall i :: 0 <= i < |plan| && (forall j :: 0 <= j < i ==> RunsClean(w, plan, j)) ==>
                       w.approves(plan[i].specialist))
            && (r.status == Failed ==> r.blockedOn == None && (r.synthesis.Some? ==> r.synthesis.value.partial))
            && (r.status == Failed && (forall i :: 0 <= i < |plan| ==> RunsClean(w, plan, i)) ==> r.synthesis == None)
            && (r.status == Completed ==> r.blockedOn == None)
  {
    hide RunsClean, Results, FindingsOf, Comparable, ExitFrom, CostAt, TokensAt;
    CompletedExactly(w, plan);
    if forall i :: 0 <= i < |plan| ==> RunsClean(w, plan, i) { CleanRun(w, plan); }
    var r := ResultOf(w, plan);
    if r.status == Blocked {
      BlockedExactly(w, plan, r.blockedOn);
    }
    if i :| 0 <= i < |plan| && !w.approves(plan[i].specialist) && forall j :: 0 <= j < i ==> RunsClean(w, plan, j) {
      BlockedExactly(w, plan, Some(plan[i].specialist));
    }
  }

  /** A task that stops at an approved sub-task keeps what was delegated by then, the sub-task's own
      result included unless its setup raised: its synthesis is there exactly when there are such
      results and their confidences compare. */
  lemma {:induction false} FailedSynthesis(w: World, plan: seq<SubTask>, i: nat)
    requires i < |plan| && w.approves(plan[i].specialist) && !RunsClean(w, plan, i)
    requires forall j :: 0 <= j < i ==> RunsClean(w, plan, j)
    ensures var r := ResultOf(w, plan);
            var rs := Results(w, plan, if w.setupRaises(i) then i else i + 1);
            && r.status == Failed && (r.synthesis.Some? <==> rs != [] && Comparable(FindingsOf(rs)))
            && (r.synthesis.Some? ==> r.synthesis == Some(SynthesisOf(rs).value.(partial := true)))
  {
    hide Delegated, FindingsOf, InsightsOf, ContentOf, ConfidenceOf, SuccessesOf, Comparable, ExitFrom, CostAt, TokensAt;
    var e := ExitFrom(w, plan, 0);
    if e.Finished? || i < e.i {
      CleanUpToExit(w, plan, i);
    } else {
      StopsForAReason(w, plan, 0);
      ExitReason(w, plan, 0);
      assert !RunsClean(w, plan, e.i);
      assert e.i == i;
      SetupExit(w, plan, 0);
    }
  }

  lemma {:induction false} SetupExit(w: World, plan: seq<SubTask>, i: nat)
    requires i <= |plan|
    ensures var e := ExitFrom(w, plan, i);
            !e.Finished? && w.approves(plan[e.i].specialist) ==> (e.SetupRaised? <==> w.setupRaises(e.i))
    decreases |plan| - i
  {
    if i < |plan| { SetupExit(w, plan, i + 1); }
  }

  /** The synthesis of a completed task covers one result per plan item, in plan order, and is
      partial exactly when one of them failed. */
  lemma CompletedCoversPlan(w: World, plan: seq<SubTask>)
    requires ResultOf(w, plan).status.Completed?
    ensures var rs := Results(w, plan, |plan|);
            && ResultOf(w, plan).synthesis == SynthesisOf(rs) && SynthesisOf(rs).Some?
            && SynthesisOf(rs).value.specialistCount == |plan|
            && (SynthesisOf(rs).value.partial <==> exists i :: 0 <= i < |plan| && !Delegated(w, plan, i).success)
  {
    hide Delegated, FindingsOf, InsightsOf, ContentOf, ConfidenceOf, SuccessesOf, Comparable, ExitFrom, CostAt, TokensAt;
    var rs := Results(w, plan, |plan|);
    PartialExactly(rs);
    if i :| 0 <= i < |plan| && !Delegated(w, plan, i).success { assert !rs[i].success; }
  }

  lemma {:induction false} StopsForAReason(w: World, plan: seq<SubTask>, i: nat)
    requires i <= |plan| && !ExitFrom(w, plan, i).Finished?
    ensures var j := ExitFrom(w, plan, i).i;
            || !w.approves(plan[j].specialist) || w.setupRaises(j)
            || Delegated(w, plan, j).cost.NotNumeric? || TokenEntry(Delegated(w, plan, j)).NotNumeric?
    decreases |plan| - i
  {
    if i < |plan| && w.approves(plan[i].specialist) && !w.setupRaises(i)
       && !Delegated(w, plan, i).cost.NotNumeric? && !TokenEntry(Delegated(w, plan, i)).NotNumeric? {
      StopsForAReason(w, plan, i + 1);
    }
  }
}
