/** The observability smoke verifier: the checks on one evidence snapshot, and the bounded poll. */
module TracePolling {
  import opened SqlLogic

  // -----------------------------------------------------------------------------------------
  // Evidence, with identifiers already passed through the safe-identifier filter

  datatype Outcome = NoOutcome | Text(s: string) | OtherValue

  const CANONICAL_OUTCOMES: set<string> := {
    "succeeded", "partial", "skipped_policy", "skipped_duplicate", "filtered", "retryable_failure",
    "permanent_failure", "cancelled"}

  const PERSISTED_SOURCES: set<string> := {"persisted_queue_envelope", "postgresql"}

  datatype Attempt = Attempt(
    matches: bool,
    generation: Option<nat>,
    service: Option<string>,
    carrier: Option<string>,
    outcome: Outcome)

  datatype Observation = Observation(
    matches: bool,
    id: Option<string>,
    parentAbsent: bool,
    parent: Option<string>,
    service: Option<string>,
    hasGenerationMetadata: bool)

  datatype Snapshot = Snapshot(
    responseHeader: bool,
    attempts: seq<Attempt>,
    logServices: set<string>,
    observations: seq<Observation>,
    canariesAbsent: bool,
    exportHealth: bool)

  // -----------------------------------------------------------------------------------------
  // sorted(set(xs))

  function Insert(x: nat, sorted: seq<nat>): (r: seq<nat>) {
    if sorted == [] then [x]
    else if x < sorted[0] then [x] + sorted
    else if x == sorted[0] then sorted
    else [sorted[0]] + Insert(x, sorted[1..])
  }

  function SortedSet(xs: seq<nat>): (r: seq<nat>) {
    if xs == [] then [] else Insert(xs[0], SortedSet(xs[1..]))
  }

  predicate Increasing(xs: seq<nat>) {
    forall i, j :: 0 <= i < j < |xs| ==> xs[i] < xs[j]
  }

  lemma {:induction false} InsertKeepsOrder(x: nat, sorted: seq<nat>)
    requires Increasing(sorted)
    ensures Increasing(Insert(x, sorted))
    ensures forall y :: y in Insert(x, sorted) <==> y == x || y in sorted
  {
    if sorted != [] && x > sorted[0] {
      InsertKeepsOrder(x, sorted[1..]);
      assert sorted == [sorted[0]] + sorted[1..];
    }
  }

  /** sorted(set(xs)) is the increasing list of the elements of xs. */
  lemma {:induction false} SortedSetMeaning(xs: seq<nat>)
    ensures Increasing(SortedSet(xs)) && forall y :: y in SortedSet(xs) <==> y in xs
  {
    if xs != [] {
      SortedSetMeaning(xs[1..]);
      InsertKeepsOrder(xs[0], SortedSet(xs[1..]));
      assert xs == [xs[0]] + xs[1..];
    }
  }

  lemma {:induction false} IncreasingIsSortedSet(xs: seq<nat>)
    requires Increasing(xs)
    ensures SortedSet(xs) == xs
  {
    if xs != [] {
      IncreasingIsSortedSet(xs[1..]);
      if |xs| > 1 { assert xs[0] < xs[1] == xs[1..][0]; }
    }
  }

  /** The row check's comparison is strict growth in disguise. */
  lemma SortedSetTest(xs: seq<nat>)
    ensures xs == SortedSet(xs) <==> Increasing(xs)
  {
    SortedSetMeaning(xs);
    if Increasing(xs) { IncreasingIsSortedSet(xs); }
  }

  // -----------------------------------------------------------------------------------------
  // verify_snapshot

  function Matching(attempts: seq<Attempt>): (r: seq<Attempt>) {
    if attempts == [] then []
    else (if attempts[0].matches then [attempts[0]] else []) + Matching(attempts[1..])
  }

  /** The generations that are valid, in attempt order. */
  function Generations(attempts: seq<Attempt>): (r: seq<nat>) {
    if attempts == [] then []
    else (if attempts[0].generation.Some? then [attempts[0].generation.value] else []) + Generations(attempts[1..])
  }

  predicate RowsCheck(s: Snapshot) {
    var m := Matching(s.attempts);
    && m != [] && |m| == |s.attempts|
    && (forall i | 0 <= i < |m| :: m[i].generation.Some?)
    && Generations(m) == SortedSet(Generations(m))
    && (forall i | 0 <= i < |m| :: m[i].service.Some?)
  }

  predicate OutcomesCheck(s: Snapshot) {
    var m := Matching(s.attempts);
    m != [] && forall i | 0 <= i < |m| ::
                 m[i].outcome.NoOutcome? || (m[i].outcome.Text? && m[i].outcome.s in CANONICAL_OUTCOMES)
  }

  predicate WorkerHopCheck(s: Snapshot) {
    exists i | 0 <= i < |Matching(s.attempts)| ::
      && Matching(s.attempts)[i].service == Some("aca-worker")
      && Matching(s.attempts)[i].carrier.Some?
      && Matching(s.attempts)[i].carrier.value in PERSISTED_SOURCES + {"queue_envelope"}
  }

  predicate PersistedSuccess(s: Snapshot) {
    var m := Matching(s.attempts);
    && m != [] && m[|m| - 1].outcome == Text("succeeded")
    && m[|m| - 1].carrier.Some? && m[|m| - 1].carrier.value in PERSISTED_SOURCES
  }

  predicate EarlierRetryable(s: Snapshot) {
    exists i | 0 <= i < |Matching(s.attempts)| - 1 :: Matching(s.attempts)[i].outcome == Text("retryable_failure")
  }

  predicate Pairwise(xs: seq<nat>) {
    forall i | 0 <= i < |xs| - 1 :: xs[i + 1] > xs[i]
  }

  predicate RetryCheck(s: Snapshot) {
    var g := Generations(Matching(s.attempts));
    |Matching(s.attempts)| >= 2 && |g| >= 2 && Pairwise(g) && PersistedSuccess(s) && EarlierRetryable(s)
  }

  predicate RestartCheck(s: Snapshot) {
    RetryCheck(s) && PersistedSuccess(s)
  }

  function RootIds(s: Snapshot): (r: set<Option<string>>) {
    set i | 0 <= i < |s.observations| && s.observations[i].matches && s.observations[i].parentAbsent
            && s.observations[i].service == Some("aca-api") :: s.observations[i].id
  }

  function ObservationIds(s: Snapshot): (r: set<Option<string>>) {
    set i | 0 <= i < |s.observations| && s.observations[i].matches :: s.observations[i].id
  }

  predicate IsWorkerChild(s: Snapshot, o: Observation) {
    o.matches && o.service == Some("aca-worker") && o.parent in RootIds(s)
  }

  predicate HierarchyCheck(s: Snapshot) {
    && RootIds(s) != {}
    && (exists i | 0 <= i < |s.observations| :: IsWorkerChild(s, s.observations[i]))
    && (forall i | 0 <= i < |s.observations| :: s.observations[i].matches)
    && RootIds(s) <= ObservationIds(s)
  }

  predicate MetadataCheck(s: Snapshot) {
    exists i | 0 <= i < |s.observations| :: IsWorkerChild(s, s.observations[i]) && s.observations[i].hasGenerationMetadata
  }

  /** The checks in their reporting order, each with its failure code. */
  function Checks(s: Snapshot): (r: seq<(bool, string)>)
    ensures |r| == 11
  {
    [(s.responseHeader, "api_trace_header_mismatch"),
     (WorkerHopCheck(s), "queued_worker_hop_missing"),
     (RowsCheck(s), "postgres_attempt_evidence_missing"),
     (OutcomesCheck(s), "attempt_outcome_invalid"),
     ({"aca-api", "aca-worker"} <= s.logServices, "correlated_logs_missing"),
     (HierarchyCheck(s), "langfuse_hierarchy_missing"),
     (MetadataCheck(s), "generation_metadata_missing"),
     (RetryCheck(s), "retry_generation_missing"),
     (RestartCheck(s), "restart_context_not_persisted"),
     (s.canariesAbsent, "secret_canary_exposed"),
     (s.exportHealth, "export_health_missing")]
  }

  function FailureCodes(checks: seq<(bool, string)>): (r: seq<string>) {
    if checks == [] then []
    else (if checks[0].0 then [] else [checks[0].1]) + FailureCodes(checks[1..])
  }

  datatype Report = Report(ready: bool, failureCodes: seq<string>, timedOut: bool)

  function Verify(s: Snapshot): (r: Report) {
    var codes := FailureCodes(Checks(s));
    Report(codes == [], codes, false)
  }

  lemma {:induction false} CodesNameTheFailures(checks: seq<(bool, string)>)
    ensures FailureCodes(checks) == [] <==> forall i :: 0 <= i < |checks| ==> checks[i].0
    ensures forall c :: c in FailureCodes(checks) <==> exists i :: 0 <= i < |checks| && !checks[i].0 && checks[i].1 == c
  {
    if checks != [] {
      var rest := checks[1..];
      CodesNameTheFailures(rest);
      assert forall i :: 0 <= i < |rest| ==> checks[i + 1] == rest[i];
      forall c ensures c in FailureCodes(checks) <==> exists i :: 0 <= i < |checks| && !checks[i].0 && checks[i].1 == c {
        if c in FailureCodes(rest) {
          var i :| 0 <= i < |rest| && !rest[i].0 && rest[i].1 == c;
          assert !checks[i + 1].0 && checks[i + 1].1 == c;
        }
        if i :| 0 <= i < |checks| && !checks[i].0 && checks[i].1 == c {
          if i > 0 { assert rest[i - 1] == checks[i]; }
        }
      }
    }
  }

  /** Ready means that every one of the checks passed on that snapshot. */
  lemma ReadyExactly(s: Snapshot)
    ensures Verify(s).ready <==> forall i :: 0 <= i < 11 ==> Checks(s)[i].0
    ensures !Verify(s).timedOut && "trace_arrival_timeout" !in Verify(s).failureCodes
  {
    hide Checks;
    CodesNameTheFailures(Checks(s));
    NoTimeoutCode(s);
  }

  lemma NoTimeoutCode(s: Snapshot)
    ensures forall i :: 0 <= i < 11 ==> Checks(s)[i].1 != "trace_arrival_timeout"
  {
  }

  lemma {:induction false} AllGenerationsValid(m: seq<Attempt>)
    requires forall i :: 0 <= i < |m| ==> m[i].generation.Some?
    ensures |Generations(m)| == |m|
  {
    if m != [] { AllGenerationsValid(m[1..]); }
  }

  /** Once the rows check passes, the pairwise test of the retry check adds nothing: retry continuity
      is then just a persisted final success after a retryable failure. */
  lemma RetryGivenRows(s: Snapshot)
    requires RowsCheck(s)
    ensures Pairwise(Generations(Matching(s.attempts)))
    ensures RetryCheck(s) <==> PersistedSuccess(s) && EarlierRetryable(s)
  {
    hide PersistedSuccess;
    var m := Matching(s.attempts);
    SortedSetTest(Generations(m));
    AllGenerationsValid(m);
  }

  /** Comparing neighbours is comparing all pairs. */
  lemma {:induction false} PairwiseIsIncreasing(xs: seq<nat>)
    ensures Pairwise(xs) <==> forall i, j :: 0 <= i < j < |xs| ==> xs[i] < xs[j]
  {
    if Pairwise(xs) {
      forall i, j | 0 <= i < j < |xs| ensures xs[i] < xs[j] {
        PairwiseReaches(xs, i, j);
      }
    }
  }

  lemma {:induction false} PairwiseReaches(xs: seq<nat>, i: nat, j: nat)
    requires Pairwise(xs) && i < j < |xs|
    ensures xs[i] < xs[j]
    decreases j
  {
    assert xs[j - 1 + 1] > xs[j - 1];
    if i < j - 1 { PairwiseReaches(xs, i, j - 1); }
  }

  /** The retry check by itself, on the job's own rows: at least two valid generations, those that are
      valid strictly growing, and a final success from a persisted carrier after a retryable failure. */
  lemma {:induction false} RetryExactly(s: Snapshot)
    ensures var (m, g) := (Matching(s.attempts), Generations(Matching(s.attempts)));
            RetryCheck(s) <==>
              && |g| >= 2 && (forall i, j :: 0 <= i < j < |g| ==> g[i] < g[j])
              && m[|m| - 1].outcome == Text("succeeded")
              && (m[|m| - 1].carrier == Some("postgresql") || m[|m| - 1].carrier == Some("persisted_queue_envelope"))
              && exists i | 0 <= i < |m| - 1 :: m[i].outcome == Text("retryable_failure")
  {
    FewerGenerations(Matching(s.attempts));
    PairwiseIsIncreasing(Generations(Matching(s.attempts)));
    hide Matching, Generations, Pairwise;
  }

  lemma {:induction false} FewerGenerations(m: seq<Attempt>)
    ensures |Generations(m)| <= |m|
  {
    if m != [] { FewerGenerations(m[1..]); }
  }

  lemma {:induction false} MatchingAll(attempts: seq<Attempt>)
    ensures |Matching(attempts)| <= |attempts|
    ensures |Matching(attempts)| == |attempts| <==> forall i :: 0 <= i < |attempts| ==> attempts[i].matches
    ensures |Matching(attempts)| == |attempts| ==> Matching(attempts) == attempts
  {
    if attempts != [] {
      MatchingAll(attempts[1..]);
      assert attempts == [attempts[0]] + attempts[1..];
      if forall i :: 0 <= i < |attempts| ==> attempts[i].matches {
        assert forall i :: 0 <= i < |attempts[1..]| ==> attempts[1..][i] == attempts[i + 1];
      }
      if |Matching(attempts)| == |attempts| {
        forall i | 0 <= i < |attempts| ensures attempts[i].matches {
          if i > 0 { assert attempts[1..][i - 1] == attempts[i]; }
        }
      }
    }
  }

  lemma {:induction false} GenerationsAt(m: seq<Attempt>)
    requires forall i :: 0 <= i < |m| ==> m[i].generation.Some?
    ensures |Generations(m)| == |m| && forall i :: 0 <= i < |m| ==> Generations(m)[i] == m[i].generation.value
  {
    if m != [] {
      GenerationsAt(m[1..]);
      forall i | 0 <= i < |m| ensures Generations(m)[i] == m[i].generation.value {
        if i > 0 { assert m[1..][i - 1] == m[i]; }
      }
    }
  }

  /** Attempt rows that stand for a retried job: all its own, named, in order of strictly growing
      generations, the last of which succeeded from a persisted carrier after a retryable failure,
      with an outcome from the list or none on each, and one of them a queued worker hop. */
  predicate RetriedAttempts(a: seq<Attempt>) {
    && (forall i | 0 <= i < |a| :: a[i].matches && a[i].service.Some? && a[i].generation.Some?)
    && (forall i, j | 0 <= i < j < |a| :: a[i].generation.value < a[j].generation.value)
    && (forall i | 0 <= i < |a| ::
          a[i].outcome == NoOutcome
          || a[i].outcome in {Text("succeeded"), Text("partial"), Text("skipped_policy"), Text("skipped_duplicate"),
                              Text("filtered"), Text("retryable_failure"), Text("permanent_failure"), Text("cancelled")})
    && (exists i | 0 <= i < |a| ::
          && a[i].service == Some("aca-worker")
          && a[i].carrier in {Some("queue_envelope"), Some("persisted_queue_envelope"), Some("postgresql")})
    && a != [] && a[|a| - 1].outcome == Text("succeeded")
    && a[|a| - 1].carrier in {Some("persisted_queue_envelope"), Some("postgresql")}
    && (exists i | 0 <= i < |a| - 1 :: a[i].outcome == Text("retryable_failure"))
  }

  /** Observations that form a trace: all its own, with a worker observation that carries generation
      metadata under an API root of the same identifier. */
  ghost predicate TracedObservations(o: seq<Observation>) {
    && (forall i | 0 <= i < |o| :: o[i].matches)
    && exists i, j :: GeneratedUnder(o, i, j)
  }

  predicate GeneratedUnder(o: seq<Observation>, i: int, j: int) {
    && 0 <= i < |o| && 0 <= j < |o|
    && o[i].matches && o[i].service == Some("aca-worker") && o[i].hasGenerationMetadata
    && o[j].matches && o[j].service == Some("aca-api") && o[j].parentAbsent && o[i].parent == o[j].id
  }

  lemma {:induction false} AttemptChecks(s: Snapshot)
    ensures WorkerHopCheck(s) && RowsCheck(s) && OutcomesCheck(s) && RetryCheck(s) && RestartCheck(s)
       <==> RetriedAttempts(s.attempts)
  {
    hide *;
    if forall i :: 0 <= i < |s.attempts| ==> s.attempts[i].matches && s.attempts[i].generation.Some? {
      MatchingAll(s.attempts);
      GenerationsAt(s.attempts);
      SortedSetTest(Generations(s.attempts));
      RowsAndHop(s);
      RetryOnAttempts(s);
      RetriedMeans(s.attempts);
    } else {
      ForeignRows(s);
    }
  }

  lemma RetriedMeans(a: seq<Attempt>)
    ensures RetriedAttempts(a) <==>
              && (forall i | 0 <= i < |a| :: a[i].matches && a[i].generation.Some?)
              && (forall i | 0 <= i < |a| :: a[i].service.Some?)
              && (forall i, j | 0 <= i < j < |a| :: a[i].generation.value < a[j].generation.value)
              && (forall i | 0 <= i < |a| ::
                    a[i].outcome == NoOutcome
                    || a[i].outcome in {Text("succeeded"), Text("partial"), Text("skipped_policy"), Text("skipped_duplicate"),
                                        Text("filtered"), Text("retryable_failure"), Text("permanent_failure"), Text("cancelled")})
              && (exists i | 0 <= i < |a| ::
                    && a[i].service == Some("aca-worker")
                    && a[i].carrier in {Some("queue_envelope"), Some("persisted_queue_envelope"), Some("postgresql")})
              && a != [] && a[|a| - 1].outcome == Text("succeeded")
              && a[|a| - 1].carrier in {Some("persisted_queue_envelope"), Some("postgresql")}
              && (exists i | 0 <= i < |a| - 1 :: a[i].outcome == Text("retryable_failure"))
  {
  }

  lemma ForeignRows(s: Snapshot)
    requires !(forall i :: 0 <= i < |s.attempts| ==> s.attempts[i].matches && s.attempts[i].generation.Some?)
    ensures !RowsCheck(s) && !RetriedAttempts(s.attempts)
  {
    MatchingAll(s.attempts);
    hide Matching, Generations, SortedSet, CANONICAL_OUTCOMES;
  }

  lemma RowsAndHop(s: Snapshot)
    requires Matching(s.attempts) == s.attempts
    requires forall i :: 0 <= i < |s.attempts| ==> s.attempts[i].generation.Some? && s.attempts[i].matches
    requires Generations(s.attempts) == SortedSet(Generations(s.attempts)) <==> Increasing(Generations(s.attempts))
    requires |Generations(s.attempts)| == |s.attempts|
    requires forall i :: 0 <= i < |s.attempts| ==> Generations(s.attempts)[i] == s.attempts[i].generation.value
    ensures var a := s.attempts;
            && (RowsCheck(s) <==>
                  && a != [] && (forall i | 0 <= i < |a| :: a[i].service.Some?)
                  && forall i, j | 0 <= i < j < |a| :: a[i].generation.value < a[j].generation.value)
            && (WorkerHopCheck(s) <==>
                  exists i | 0 <= i < |a| ::
                    && a[i].service == Some("aca-worker")
                    && a[i].carrier in {Some("queue_envelope"), Some("persisted_queue_envelope"), Some("postgresql")})
            && (OutcomesCheck(s) <==>
                  && a != []
                  && forall i | 0 <= i < |a| ::
                       a[i].outcome == NoOutcome
                       || a[i].outcome in {Text("succeeded"), Text("partial"), Text("skipped_policy"), Text("skipped_duplicate"),
                                           Text("filtered"), Text("retryable_failure"), Text("permanent_failure"), Text("cancelled")})
  {
    hide Matching, Generations, SortedSet;
  }

  lemma RetryOnAttempts(s: Snapshot)
    requires Matching(s.attempts) == s.attempts
    requires forall i :: 0 <= i < |s.attempts| ==> s.attempts[i].generation.Some?
    requires |Generations(s.attempts)| == |s.attempts|
    requires forall i :: 0 <= i < |s.attempts| ==> Generations(s.attempts)[i] == s.attempts[i].generation.value
    ensures var a := s.attempts;
            (forall i, j | 0 <= i < j < |a| :: a[i].generation.value < a[j].generation.value) ==>
            (RetryCheck(s) && RestartCheck(s) <==>
               && a != [] && a[|a| - 1].outcome == Text("succeeded")
               && a[|a| - 1].carrier in {Some("persisted_queue_envelope"), Some("postgresql")}
               && exists i | 0 <= i < |a| - 1 :: a[i].outcome == Text("retryable_failure"))
  {
    hide Matching, Generations;
  }

  lemma {:induction false} MetadataExactly(s: Snapshot)
    ensures MetadataCheck(s) <==> exists i, j :: GeneratedUnder(s.observations, i, j)
  {
    var o := s.observations;
    if MetadataCheck(s) {
      var i :| 0 <= i < |o| && IsWorkerChild(s, o[i]) && o[i].hasGenerationMetadata;
      var j :| 0 <= j < |o| && o[j].matches && o[j].parentAbsent && o[j].service == Some("aca-api") && o[j].id == o[i].parent;
      assert GeneratedUnder(o, i, j);
    }
    if i, j :| GeneratedUnder(o, i, j) {
      assert o[j].id in RootIds(s);
      assert IsWorkerChild(s, o[i]);
    }
  }

  lemma HierarchyGivenMetadata(s: Snapshot)
    requires MetadataCheck(s)
    ensures HierarchyCheck(s) <==> forall i | 0 <= i < |s.observations| :: s.observations[i].matches
  {
    var i :| 0 <= i < |s.observations| && IsWorkerChild(s, s.observations[i]) && s.observations[i].hasGenerationMetadata;
    assert s.observations[i].parent in RootIds(s);
  }

  lemma {:induction false} ObservationChecks(s: Snapshot)
    ensures HierarchyCheck(s) && MetadataCheck(s) <==> TracedObservations(s.observations)
  {
    MetadataExactly(s);
    if MetadataCheck(s) { HierarchyGivenMetadata(s); }
    hide HierarchyCheck, MetadataCheck, GeneratedUnder;
  }

  /** What a ready report is worth, on the evidence itself: several of the eleven checks are implied
      by the others. */
  lemma {:induction false} ReadyMeans(s: Snapshot)
    ensures Verify(s).ready <==>
              && s.responseHeader && "aca-api" in s.logServices && "aca-worker" in s.logServices
              && RetriedAttempts(s.attempts) && TracedObservations(s.observations)
              && s.canariesAbsent && s.exportHealth
  {
    ChecksByName(s);
    hide *;
    ReadyExactly(s);
    AttemptChecks(s);
    ObservationChecks(s);
    assert Verify(s).ready <==> AllOf11(Checks(s)) by { EachOf11(Checks(s)); }
    EachOf11(Checks(s));
  }

  predicate AllOf11(c: seq<(bool, string)>)
    requires |c| == 11
  {
    forall i :: 0 <= i < 11 ==> c[i].0
  }

  lemma EachOf11(c: seq<(bool, string)>)
    requires |c| == 11
    ensures AllOf11(c) <==> forall i :: 0 <= i < 11 ==> c[i].0
    ensures AllOf11(c) <==>
              c[0].0 && c[1].0 && c[2].0 && c[3].0 && c[4].0 && c[5].0 && c[6].0 && c[7].0 && c[8].0 && c[9].0 && c[10].0
  {
  }

  lemma ChecksByName(s: Snapshot)
    ensures var c := Checks(s);
            && c[0].0 == s.responseHeader && c[1].0 == WorkerHopCheck(s) && c[2].0 == RowsCheck(s)
            && c[3].0 == OutcomesCheck(s) && c[4].0 == ("aca-api" in s.logServices && "aca-worker" in s.logServices)
            && c[5].0 == HierarchyCheck(s) && c[6].0 == MetadataCheck(s) && c[7].0 == RetryCheck(s)
            && c[8].0 == RestartCheck(s) && c[9].0 == s.canariesAbsent && c[10].0 == s.exportHealth
  {
    hide WorkerHopCheck, RowsCheck, OutcomesCheck, HierarchyCheck, MetadataCheck, RetryCheck, RestartCheck;
  }

  /** Lengths and initials tell the codes apart. */
  lemma CodesDistinct(s: Snapshot, i: nat, j: nat)
    requires i < j < 11
    ensures Checks(s)[i].1 != Checks(s)[j].1
  {
    hide WorkerHopCheck, RowsCheck, OutcomesCheck, HierarchyCheck, MetadataCheck, RetryCheck, RestartCheck;
    var c := Checks(s);
    assert |c[0].1| == 25 && c[0].1[0] == 'a' && |c[1].1| == 25 && c[1].1[0] == 'q' && |c[2].1| == 33;
    assert |c[3].1| == 23 && c[3].1[0] == 'a' && |c[4].1| == 23 && c[4].1[0] == 'c' && |c[5].1| == 26;
    assert |c[6].1| == 27 && |c[7].1| == 24 && |c[8].1| == 29;
    assert |c[9].1| == 21 && c[9].1[0] == 's' && |c[10].1| == 21 && c[10].1[0] == 'e';
    hide *;
  }

  lemma {:induction false} CodeReported(s: Snapshot, k: nat)
    requires k < 11
    ensures Checks(s)[k].1 in Verify(s).failureCodes <==> !Checks(s)[k].0
  {
    hide Checks, FailureCodes;
    var c := Checks(s);
    CodesNameTheFailures(c);
    if c[k].1 in Verify(s).failureCodes {
      var i :| 0 <= i < 11 && !c[i].0 && c[i].1 == c[k].1;
      if i < k { CodesDistinct(s, i, k); }
      if k < i { CodesDistinct(s, k, i); }
    }
  }

  /** Which code stands for which failure. */
  lemma {:induction false} CodesMean(s: Snapshot)
    ensures var codes := Verify(s).failureCodes;
            && ("api_trace_header_mismatch" in codes <==> !s.responseHeader)
            && ("queued_worker_hop_missing" in codes <==> !WorkerHopCheck(s))
            && ("postgres_attempt_evidence_missing" in codes <==> !RowsCheck(s))
            && ("attempt_outcome_invalid" in codes <==> !OutcomesCheck(s))
            && ("correlated_logs_missing" in codes <==> "aca-api" !in s.logServices || "aca-worker" !in s.logServices)
            && ("langfuse_hierarchy_missing" in codes <==> !HierarchyCheck(s))
            && ("generation_metadata_missing" in codes <==> !MetadataCheck(s))
            && ("retry_generation_missing" in codes <==> !RetryCheck(s))
            && ("restart_context_not_persisted" in codes <==> !RestartCheck(s))
            && ("secret_canary_exposed" in codes <==> !s.canariesAbsent)
            && ("export_health_missing" in codes <==> !s.exportHealth)
  {
    ChecksByName(s);
    CodesInOrder(s);
    hide *;
    CodeReported(s, 0); CodeReported(s, 1); CodeReported(s, 2); CodeReported(s, 3);
    CodeReported(s, 4); CodeReported(s, 5); CodeReported(s, 6); CodeReported(s, 7);
    CodeReported(s, 8); CodeReported(s, 9); CodeReported(s, 10);
  }

  lemma CodesInOrder(s: Snapshot)
    ensures var c := Checks(s);
            && c[0].1 == "api_trace_header_mismatch" && c[1].1 == "queued_worker_hop_missing"
            && c[2].1 == "postgres_attempt_evidence_missing" && c[3].1 == "attempt_outcome_invalid"
            && c[4].1 == "correlated_logs_missing" && c[5].1 == "langfuse_hierarchy_missing"
            && c[6].1 == "generation_metadata_missing" && c[7].1 == "retry_generation_missing"
            && c[8].1 == "restart_context_not_persisted" && c[9].1 == "secret_canary_exposed"
            && c[10].1 == "export_health_missing"
  {
    hide WorkerHopCheck, RowsCheck, OutcomesCheck, HierarchyCheck, MetadataCheck, RetryCheck, RestartCheck;
  }

  /** The restart check repeats a conjunct of the retry check, so their two codes always come
      together. */
  lemma RestartCodeShadowsRetryCode(s: Snapshot)
    ensures "restart_context_not_persisted" in Verify(s).failureCodes
       <==> "retry_generation_missing" in Verify(s).failureCodes
  {
    hide PersistedSuccess, EarlierRetryable, WorkerHopCheck, RowsCheck, OutcomesCheck, HierarchyCheck, MetadataCheck;
    var checks := Checks(s);
    CodesNameTheFailures(checks);
    assert checks[7].1 == "retry_generation_missing" && checks[8].1 == "restart_context_not_persisted";
    assert checks[7].0 == checks[8].0;
  }

  /** Worker observation i names, by its identifier, root observation j: the link the hierarchy
      check is there to find. */
  predicate Linked(s: Snapshot, i: nat, j: nat) {
    && i < |s.observations| && j < |s.observations|
    && s.observations[i].matches && s.observations[i].service == Some("aca-worker")
    && s.observations[j].matches && s.observations[j].service == Some("aca-api") && s.observations[j].parentAbsent
    && s.observations[j].id.Some? && s.observations[i].parent == s.observations[j].id
  }

  ghost predicate IdentifiedLink(s: Snapshot) {
    exists i: nat, j: nat :: Linked(s, i, j)
  }

  /** A worker child that carries a parent identifier is linked to a root that carries the same. */
  lemma NamedParentIsLinked(s: Snapshot, i: nat)
    requires i < |s.observations| && IsWorkerChild(s, s.observations[i]) && s.observations[i].parent.Some?
    ensures IdentifiedLink(s)
  {
    var j :| 0 <= j < |s.observations| && s.observations[j].matches && s.observations[j].parentAbsent
             && s.observations[j].service == Some("aca-api") && s.observations[j].id == s.observations[i].parent;
    assert Linked(s, i, j);
  }

  /** Roots are matched by filtered identifiers, so the hierarchy check passes with no link by
      identifier exactly when it passes and every worker child it found lacks a parent identifier,
      which takes a root that lacks its own. */
  lemma {:induction false} HierarchyHoldsWithoutLinkExactly(s: Snapshot)
    requires HierarchyCheck(s)
    ensures !IdentifiedLink(s) <==>
              forall i :: 0 <= i < |s.observations| && IsWorkerChild(s, s.observations[i]) ==> s.observations[i].parent.None?
    ensures !IdentifiedLink(s) ==> None in RootIds(s)
  {
    forall i | 0 <= i < |s.observations| && IsWorkerChild(s, s.observations[i]) && s.observations[i].parent.Some?
      ensures IdentifiedLink(s)
    {
      NamedParentIsLinked(s, i);
    }
    if IdentifiedLink(s) {
      var i: nat, j: nat :| Linked(s, i, j);
      assert s.observations[j].id in RootIds(s);
      assert IsWorkerChild(s, s.observations[i]);
    }
  }

  /** With every root identified, the check means what it says: some worker observation names an
      identified root. */
  lemma HierarchyNamesIdentifiedRoot(s: Snapshot)
    requires HierarchyCheck(s) && None !in RootIds(s)
    ensures exists i: nat, j: nat :: Linked(s, i, j)
  {
    hide HierarchyCheck, RootIds, IsWorkerChild;
    HierarchyHoldsWithoutLinkExactly(s);
  }

  /** A root and a worker observation that both lack an identifier are taken for parent and child. */
  lemma HierarchyHoldsWithoutIdentifiers(s: Snapshot)
    requires s.observations == [Observation(true, None, true, None, Some("aca-api"), false),
                                Observation(true, None, true, None, Some("aca-worker"), true)]
    ensures HierarchyCheck(s) && MetadataCheck(s) && !IdentifiedLink(s)
  {
    var root := s.observations[0];
    assert root.id in RootIds(s);
    assert IsWorkerChild(s, s.observations[1]);
  }

  // -----------------------------------------------------------------------------------------
  // poll_trace_arrival

  /** What the k-th collection brings; live collection raises on a foreign identity. */
  datatype Collected = Mismatch | Evidence(snapshot: Snapshot)

  type Collector = nat -> Collected

  /** Readings of the monotonic clock: reading 0 before the loop, reading k + 1 after collection k. */
  type Clock = nat -> real

  ghost predicate SleepsAdvance(clock: Clock, interval: real) {
    && clock(0) <= clock(1)
    && forall k: nat {:trigger clock(k + 1)} :: k >= 1 ==> clock(k + 1) >= clock(k) + interval
  }

  function Ceiling(x: real): (n: int)
    ensures x <= n as real < x + 1.0
  {
    -((-x).Floor)
  }

  /** k intervals, added up. */
  ghost function Slept(interval: real, k: nat): (total: real) {
    if k == 0 then 0.0 else Slept(interval, k - 1) + interval
  }

  lemma {:induction false} SleptIsProduct(interval: real, k: nat)
    ensures Slept(interval, k) == k as real * interval
  {
    if k > 0 {
      SleptIsProduct(interval, k - 1);
      OneMoreInterval(k - 1, interval);
    }
  }

  lemma OneMoreInterval(k: nat, interval: real)
    ensures (k + 1) as real * interval == k as real * interval + interval
  {
    assert (k + 1) as real == k as real + 1.0;
  }

  lemma {:induction false} ElapsedAtLeast(clock: Clock, interval: real, k: nat)
    requires SleepsAdvance(clock, interval)
    ensures clock(k + 1) - clock(0) >= Slept(interval, k)
  {
    if k > 0 {
      ElapsedAtLeast(clock, interval, k - 1);
      assert clock(k + 1) >= clock(k) + interval;
    }
  }

  lemma DeadlineReached(timeout: real, interval: real, k: nat)
    requires interval > 0.0
    ensures k >= Ceiling(timeout / interval) ==> k as real * interval >= timeout
  {
    if k >= Ceiling(timeout / interval) {
      assert k as real >= timeout / interval;
      assert (k as real - timeout / interval) * interval >= 0.0;
    }
  }

  lemma DeadlineNotNegative(timeout: real, interval: real)
    requires timeout >= 0.0 && interval > 0.0
    ensures Ceiling(timeout / interval) >= 0
  {
    assert timeout / interval >= 0.0;
  }

  /** Collection k was not ready, and the deadline had not passed after it. */
  predicate PendingInTime(collect: Collector, clock: Clock, timeout: real, k: nat) {
    collect(k).Evidence? && !Verify(collect(k).snapshot).ready && clock(k + 1) - clock(0) < timeout
  }

  datatype PollResult = IdentityMismatch | Reported(report: Report)

  /** Polls until ready, out of time or mismatched. Every earlier collection was not ready and in
      time; the last one decides; and there are at most ceil(timeout / interval) + 1 of them. */
  method PollTraceArrival(collect: Collector, clock: Clock, timeout: real, interval: real)
    returns (result: PollResult, collections: nat)
    requires timeout >= 0.0 && interval > 0.0 && SleepsAdvance(clock, interval)
    ensures 1 <= collections <= Ceiling(timeout / interval) + 1
    ensures forall k :: 0 <= k < collections - 1 ==> PendingInTime(collect, clock, timeout, k)
    ensures result.IdentityMismatch? <==> collect(collections - 1).Mismatch?
    ensures result.Reported? && result.report.ready ==>
              result.report == Verify(collect(collections - 1).snapshot)
    ensures result.Reported? && !result.report.ready ==>
              && result.report.timedOut && clock(collections) - clock(0) >= timeout
              && result.report.failureCodes == Verify(collect(collections - 1).snapshot).failureCodes + ["trace_arrival_timeout"]
  {
    hide Verify, Ceiling;
    ghost var limit := Ceiling(timeout / interval);
    DeadlineNotNegative(timeout, interval);
    collections := 0;
    while true
      invariant 0 <= collections <= limit
      invariant forall k :: 0 <= k < collections ==> PendingInTime(collect, clock, timeout, k)
      decreases limit - collections
    {
      var evidence := collect(collections);
      if evidence.Mismatch? {
        return IdentityMismatch, collections + 1;
      }
      var report := Verify(evidence.snapshot);
      if report.ready {
        return Reported(report), collections + 1;
      }
      if clock(collections + 1) - clock(0) >= timeout {
        ReadyExactly(evidence.snapshot);
        var codes := report.failureCodes;
        if "trace_arrival_timeout" !in codes { codes := codes + ["trace_arrival_timeout"]; }
        return Reported(Report(false, codes, true)), collections + 1;
      }
      assert PendingInTime(collect, clock, timeout, collections);
      ElapsedAtLeast(clock, interval, collections);
      SleptIsProduct(interval, collections);
      DeadlineReached(timeout, interval, collections);
      collections := collections + 1;
    }
  }
}
