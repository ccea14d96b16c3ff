/** The workflow-provenance migration: columns added when absent, rows backfilled one by one,
    constraints tightened, and all of it safe to interrupt and run again. */
module Provenance {
  import opened SqlLogic
  import opened JsonValues

  // -----------------------------------------------------------------------------------------
  // Tables

  type Policy = map<string, Json>

  /** SHA-256 of the canonical serialization, as a function of what is serialized. */
  type Digester = (Policy, seq<int>, seq<int>) -> string

  datatype Column = Missing | Present(nullable: bool, default: Option<string>)

  /** The operation_id column of a table: whether it and its unique index exist, and its value in
      each row. */
  datatype Ownership = Ownership(column: bool, index: bool, ids: seq<Option<int>>)

  /** A row of theme_analyses or digests. */
  datatype SelectionRow = SelectionRow(
    contentIds: Option<seq<int>>,
    summaryIds: Option<seq<int>>,
    policy: Option<Policy>,
    fingerprint: Option<string>)

  datatype SelectionTable = SelectionTable(
    summaryIds: Column, policy: Column, fingerprint: Column, indexed: bool,
    rows: map<int, SelectionRow>)

  datatype ScriptRow = ScriptRow(
    digestId: Option<int>,
    newsletterIds: Option<seq<int>>,
    available: Option<seq<int>>,
    cited: Option<seq<int>>,
    fingerprint: Option<string>)

  datatype ScriptTable = ScriptTable(
    available: Column, cited: Column, fingerprint: Column, indexed: bool,
    rows: map<int, ScriptRow>)

  /** None is a table the installation does not have. */
  datatype Database = Database(
    postgres: bool,                  // the dialect
    owned: map<string, Ownership>,
    analyses: Option<SelectionTable>,
    digests: Option<SelectionTable>,
    scripts: Option<ScriptTable>,
    comments: set<(Which, SelectionColumn)>)

  datatype Which = Analyses | Digests

  datatype SelectionColumn = SummaryIds | Fingerprint | Policy

  const LEGACY_POLICY: Policy := map[
    "schema_version" := JNumber(0.0),
    "provenance" := JString("legacy-v0"),
    "date_basis" := JString("published_date"),
    "start_inclusive" := JBool(true),
    "end_exclusive" := JBool(false)]

  const EMPTY_LIST_DEFAULT := "[]"
  const POLICY_DEFAULT := "legacy-v0"   // stands for the serialized legacy policy

  /** Python's `or` on optional text: null and the empty string give way. */
  predicate Truthy(text: Option<string>) {
    text.Some? && text.value != ""
  }

  predicate NonEmptyPolicy(p: Option<Policy>) {
    p.Some? && p.value != map[]
  }

  // -----------------------------------------------------------------------------------------
  // Row backfills

  function OrEmpty(ids: Option<seq<int>>): (r: seq<int>) {
    if ids.Some? then ids.value else []
  }

  function BackfilledSelection(sha: Digester, row: SelectionRow): (r: SelectionRow) {
    var policy := if NonEmptyPolicy(row.policy) then row.policy.value else LEGACY_POLICY;
    var summaries := OrEmpty(row.summaryIds);
    row.(summaryIds := Some(summaries), policy := Some(policy),
         fingerprint := if Truthy(row.fingerprint) then row.fingerprint
                        else Some(sha(policy, OrEmpty(row.contentIds), summaries)))
  }

  function DigestFingerprint(digests: Option<SelectionTable>, digestId: Option<int>): (r: Option<string>) {
    if digests.Some? && digestId.Some? && digestId.value in digests.value.rows
    then digests.value.rows[digestId.value].fingerprint else None
  }

  function BackfilledScript(digests: Option<SelectionTable>, row: ScriptRow): (r: ScriptRow) {
    row.(available := if row.available.Some? then row.available else Some(OrEmpty(row.newsletterIds)),
         cited := if row.cited.Some? then row.cited else Some([]),
         fingerprint := if Truthy(row.fingerprint) then row.fingerprint
                        else DigestFingerprint(digests, row.digestId))
  }

  // -----------------------------------------------------------------------------------------
  // Steps: everything a run writes, at the grain at which it can be interrupted

  datatype Step =
    | OwnColumn(table: string)
    | OwnIndex(table: string)
    | AddSummaryIds(which: Which)
    | AddFingerprint(which: Which)
    | AddPolicy(which: Which)
    | BackfillSelection(which: Which, id: int)
    | HardenSummaryIds(which: Which)
    | HardenPolicy(which: Which)
    | IndexSelection(which: Which)
    | AddAvailable
    | AddCited
    | AddScriptFingerprint
    | BackfillScript(id: int)
    | HardenAvailable
    | HardenCited
    | IndexScripts
    | Comment(which: Which, column: SelectionColumn)

  function Added(c: Column): (r: Column) {
    if c.Missing? then Present(true, None) else c
  }

  function Hardened(c: Column, default: string): (r: Column) {
    if c.Missing? || c.nullable || c.default.None? then Present(false, Some(default)) else c
  }

  function SelectionStep(sha: Digester, s: Step, t: SelectionTable): (r: SelectionTable) {
    match s
    case AddSummaryIds(_) => t.(summaryIds := Added(t.summaryIds))
    case AddFingerprint(_) => t.(fingerprint := Added(t.fingerprint))
    case AddPolicy(_) => t.(policy := Added(t.policy))
    case BackfillSelection(_, id) =>
      if id in t.rows then t.(rows := t.rows[id := BackfilledSelection(sha, t.rows[id])]) else t
    case HardenSummaryIds(_) => t.(summaryIds := Hardened(t.summaryIds, EMPTY_LIST_DEFAULT))
    case HardenPolicy(_) => t.(policy := Hardened(t.policy, POLICY_DEFAULT))
    case IndexSelection(_) => t.(indexed := true)
    case _ => t
  }

  function ScriptStep(digests: Option<SelectionTable>, s: Step, t: ScriptTable): (r: ScriptTable) {
    match s
    case AddAvailable => t.(available := Added(t.available))
    case AddCited => t.(cited := Added(t.cited))
    case AddScriptFingerprint => t.(fingerprint := Added(t.fingerprint))
    case BackfillScript(id) =>
      if id in t.rows then t.(rows := t.rows[id := BackfilledScript(digests, t.rows[id])]) else t
    case HardenAvailable => t.(available := Hardened(t.available, EMPTY_LIST_DEFAULT))
    case HardenCited => t.(cited := Hardened(t.cited, EMPTY_LIST_DEFAULT))
    case IndexScripts => t.(indexed := true)
    case _ => t
  }

  function Target(s: Step): (w: Option<Which>) {
    match s
    case AddSummaryIds(w) => Some(w)
    case AddFingerprint(w) => Some(w)
    case AddPolicy(w) => Some(w)
    case BackfillSelection(w, _) => Some(w)
    case HardenSummaryIds(w) => Some(w)
    case HardenPolicy(w) => Some(w)
    case IndexSelection(w) => Some(w)
    case _ => None
  }

  function Table(db: Database, w: Which): (t: Option<SelectionTable>) {
    if w.Analyses? then db.analyses else db.digests
  }

  function WithTable(db: Database, w: Which, t: SelectionTable): (r: Database) {
    if w.Analyses? then db.(analyses := Some(t)) else db.(digests := Some(t))
  }

  /** The operation ids once the column exists: a new column is null in every row. */
  function OperationIds(o: Ownership): (r: seq<Option<int>>)
    ensures |r| == |o.ids|
  {
    if o.column then o.ids else seq(|o.ids|, _ => None)
  }

  /** A unique index takes any number of nulls. */
  predicate Unique(ids: seq<Option<int>>) {
    forall i, j | 0 <= i < j < |ids| :: ids[i].Some? ==> ids[i] != ids[j]
  }

  function ColumnOf(t: SelectionTable, c: SelectionColumn): (r: Column) {
    match c
    case SummaryIds => t.summaryIds
    case Fingerprint => t.fingerprint
    case Policy => t.policy
  }

  /** What the statement does when the database lets it. */
  function Apply(sha: Digester, s: Step, db: Database): (r: Database) {
    if s.Comment? then db.(comments := db.comments + {(s.which, s.column)})
    else if s.OwnColumn? then
      if s.table in db.owned then
        db.(owned := db.owned[s.table := db.owned[s.table].(column := true, ids := OperationIds(db.owned[s.table]))])
      else db
    else if s.OwnIndex? then
      if s.table in db.owned then db.(owned := db.owned[s.table := db.owned[s.table].(index := true)]) else db
    else if Target(s).Some? then
      var w := Target(s).value;
      if Table(db, w).Some? then WithTable(db, w, SelectionStep(sha, s, Table(db, w).value)) else db
    else
      if db.scripts.Some? then db.(scripts := Some(ScriptStep(db.digests, s, db.scripts.value))) else db
  }

  /** The statements the database refuses: an index, a tightening or a comment over an absent column,
      a unique index over a repeated value, NOT NULL over a null, a backfill that selects from an
      absent table or column. */
  predicate Refused(s: Step, db: Database) {
    match s
    case OwnIndex(t) => t in db.owned && (!db.owned[t].column || !Unique(db.owned[t].ids))
    case BackfillSelection(w, _) =>
      var t := Table(db, w);
      t.Some? && (t.value.summaryIds.Missing? || t.value.policy.Missing? || t.value.fingerprint.Missing?)
    case HardenSummaryIds(w) =>
      var t := Table(db, w);
      t.Some? && (t.value.summaryIds.Missing? || exists id | id in t.value.rows :: t.value.rows[id].summaryIds.None?)
    case HardenPolicy(w) =>
      var t := Table(db, w);
      t.Some? && (t.value.policy.Missing? || exists id | id in t.value.rows :: t.value.rows[id].policy.None?)
    case IndexSelection(w) =>
      var t := Table(db, w);
      t.Some? && t.value.fingerprint.Missing?
    case BackfillScript(_) =>
      && db.scripts.Some?
      && (|| db.digests.None? || db.digests.value.fingerprint.Missing? || db.scripts.value.available.Missing?
          || db.scripts.value.cited.Missing? || db.scripts.value.fingerprint.Missing?)
    case HardenAvailable =>
      db.scripts.Some? && (|| db.scripts.value.available.Missing?
                           || exists id | id in db.scripts.value.rows :: db.scripts.value.rows[id].available.None?)
    case HardenCited =>
      db.scripts.Some? && (|| db.scripts.value.cited.Missing?
                           || exists id | id in db.scripts.value.rows :: db.scripts.value.rows[id].cited.None?)
    case IndexScripts => db.scripts.Some? && db.scripts.value.fingerprint.Missing?
    case Comment(w, c) => !db.postgres || Table(db, w).None? || ColumnOf(Table(db, w).value, c).Missing?
    case _ => false
  }

  function Attempt(sha: Digester, s: Step, db: Database): (r: Database) {
    if Refused(s, db) then db else Apply(sha, s, db)
  }

  /** Statements one after the other, those refused without effect. */
  function Exec(sha: Digester, steps: seq<Step>, db: Database): (r: Database)
    decreases |steps|
  {
    if steps == [] then db else Exec(sha, steps[1..], Attempt(sha, steps[0], db))
  }

  // -----------------------------------------------------------------------------------------
  // The schema and data a complete run is meant to reach

  function UpgradedSelection(sha: Digester, t: SelectionTable): (r: SelectionTable) {
    SelectionTable(
      Hardened(t.summaryIds, EMPTY_LIST_DEFAULT), Hardened(t.policy, POLICY_DEFAULT), Added(t.fingerprint), true,
      map id | id in t.rows :: BackfilledSelection(sha, t.rows[id]))
  }

  function UpgradedScripts(digests: Option<SelectionTable>, t: ScriptTable): (r: ScriptTable) {
    ScriptTable(
      Hardened(t.available, EMPTY_LIST_DEFAULT), Hardened(t.cited, EMPTY_LIST_DEFAULT), Added(t.fingerprint), true,
      map id | id in t.rows :: BackfilledScript(digests, t.rows[id]))
  }

  function Owned(o: Ownership): (r: Ownership) {
    Ownership(true, true, OperationIds(o))
  }

  function TableComments(w: Which): (r: set<(Which, SelectionColumn)>) {
    {(w, SummaryIds), (w, Fingerprint), (w, Policy)}
  }

  function AllComments(db: Database): (r: set<(Which, SelectionColumn)>) {
    if !db.postgres then {}
    else (if db.analyses.Some? then TableComments(Analyses) else {})
         + (if db.digests.Some? then TableComments(Digests) else {})
  }

  function Upgraded(sha: Digester, db: Database): (r: Database) {
    var digests := if db.digests.Some? then Some(UpgradedSelection(sha, db.digests.value)) else None;
    Database(
      db.postgres,
      map t | t in db.owned :: Owned(db.owned[t]),
      if db.analyses.Some? then Some(UpgradedSelection(sha, db.analyses.value)) else None,
      digests,
      if db.scripts.Some? then Some(UpgradedScripts(digests, db.scripts.value)) else None,
      db.comments + AllComments(db))
  }

  /** Where the upgrade can go through: no operation id is repeated in a table still to be indexed,
      and the digests table is there for whatever names it unguarded, which is the backfill of the
      scripts and, on PostgreSQL, the comments. */
  predicate Upgradable(db: Database) {
    && (forall t | t in db.owned :: db.owned[t].index || Unique(OperationIds(db.owned[t])))
    && (db.scripts.Some? || db.postgres ==> db.digests.Some?)
  }

  ghost predicate Sound(sha: Digester) {
    forall p, a, b :: sha(p, a, b) != ""
  }

  // -----------------------------------------------------------------------------------------
  // No step, whenever it runs, changes where a complete run ends

  lemma BackfillIdempotent(sha: Digester, row: SelectionRow)
    requires Sound(sha)
    ensures BackfilledSelection(sha, BackfilledSelection(sha, row)) == BackfilledSelection(sha, row)
  {
  }

  lemma SelectionStepInvariant(sha: Digester, s: Step, t: SelectionTable)
    requires Sound(sha)
    ensures UpgradedSelection(sha, SelectionStep(sha, s, t)) == UpgradedSelection(sha, t)
  {
    if s.BackfillSelection? && s.id in t.rows {
      BackfillIdempotent(sha, t.rows[s.id]);
    }
  }

  /** A script backfilled against whatever the digests held then ends where it would have ended
      against the finished digests. */
  lemma ScriptRowInvariant(sha: Digester, now: SelectionTable, row: ScriptRow)
    requires Sound(sha)
    ensures var done := Some(UpgradedSelection(sha, now));
            BackfilledScript(done, BackfilledScript(Some(now), row)) == BackfilledScript(done, row)
  {
    var done := UpgradedSelection(sha, now);
    if row.digestId.Some? && row.digestId.value in now.rows {
      var digest := now.rows[row.digestId.value];
      assert done.rows[row.digestId.value] == BackfilledSelection(sha, digest);
      assert Truthy(BackfilledSelection(sha, digest).fingerprint);
      assert Truthy(digest.fingerprint) ==> BackfilledSelection(sha, digest).fingerprint == digest.fingerprint;
    }
  }

  lemma ScriptStepInvariant(sha: Digester, digests: Option<SelectionTable>, s: Step, t: ScriptTable)
    requires Sound(sha)
    ensures var done := if digests.Some? then Some(UpgradedSelection(sha, digests.value)) else None;
            UpgradedScripts(done, ScriptStep(digests, s, t)) == UpgradedScripts(done, t)
  {
    if s.BackfillScript? && s.id in t.rows && digests.Some? {
      ScriptRowInvariant(sha, digests.value, t.rows[s.id]);
    }
  }

  lemma ColumnKeepsIds(o: Ownership)
    ensures OperationIds(o.(column := true, ids := OperationIds(o))) == OperationIds(o)
  {
  }

  lemma OwnershipInvariant(o: Ownership)
    ensures Owned(o.(column := true, ids := OperationIds(o))) == Owned(o)
    ensures o.column ==> Owned(o.(index := true)) == Owned(o)
  {
  }

  lemma StepInvariant(sha: Digester, s: Step, db: Database)
    requires Sound(sha)
    ensures Upgraded(sha, Attempt(sha, s, db)) == Upgraded(sha, db)
  {
    hide Upgraded, Apply, Refused;
    if Refused(s, db) {
    } else if s.OwnColumn? || s.OwnIndex? {
      OwnershipStepInvariant(sha, s, db);
    } else if s.Comment? {
      CommentInvariant(sha, s.which, s.column, db);
    } else {
      TableStepInvariant(sha, s, db);
    }
  }

  lemma OwnershipStepInvariant(sha: Digester, s: Step, db: Database)
    requires (s.OwnColumn? || s.OwnIndex?) && !Refused(s, db)
    ensures Upgraded(sha, Apply(sha, s, db)) == Upgraded(sha, db)
  {
    hide UpgradedSelection, UpgradedScripts, Owned, OperationIds, Unique;
    if s.table in db.owned { OwnershipInvariant(db.owned[s.table]); }
  }

  lemma CommentInvariant(sha: Digester, w: Which, c: SelectionColumn, db: Database)
    requires !Refused(Comment(w, c), db)
    ensures Upgraded(sha, Apply(sha, Comment(w, c), db)) == Upgraded(sha, db)
  {
    hide UpgradedSelection, UpgradedScripts, Owned;
    assert (w, c) in AllComments(db);
    assert db.comments + {(w, c)} + AllComments(db) == db.comments + AllComments(db);
  }

  lemma TableStepInvariant(sha: Digester, s: Step, db: Database)
    requires Sound(sha) && !s.OwnColumn? && !s.OwnIndex? && !s.Comment?
    ensures Upgraded(sha, Apply(sha, s, db)) == Upgraded(sha, db)
  {
    hide UpgradedSelection, UpgradedScripts, SelectionStep, ScriptStep, Owned, AllComments;
    var next := Apply(sha, s, db);
    assert next.postgres == db.postgres && next.owned == db.owned && next.comments == db.comments;
    SameComments(next, db);
    if Target(s) == Some(Analyses) {
      if db.analyses.Some? { SelectionStepInvariant(sha, s, db.analyses.value); }
    } else if Target(s) == Some(Digests) {
      if db.digests.Some? { SelectionStepInvariant(sha, s, db.digests.value); }
    } else if db.scripts.Some? {
      ScriptStepInvariant(sha, db.digests, s, db.scripts.value);
    }
  }

  lemma SameComments(a: Database, b: Database)
    requires a.postgres == b.postgres && (a.analyses.Some? <==> b.analyses.Some?) && (a.digests.Some? <==> b.digests.Some?)
    ensures AllComments(a) == AllComments(b)
  {
  }

  /** Restart safety: after any steps at all (any prefixes of any number of interrupted runs, rows
      taken in any order), a complete run still ends at the schema and data of one clean run. */
  lemma {:induction false} RestartSafe(sha: Digester, interrupted: seq<Step>, db: Database)
    requires Sound(sha)
    ensures Upgraded(sha, Exec(sha, interrupted, db)) == Upgraded(sha, db)
    decreases |interrupted|
  {
    hide Upgraded, Attempt;
    if interrupted != [] {
      StepInvariant(sha, interrupted[0], db);
      RestartSafe(sha, interrupted[1..], Attempt(sha, interrupted[0], db));
    }
  }

  /** What each statement needs of the database, so what the order of the migration has to provide:
      columns before backfills, backfills before NOT NULL, fingerprints before their index, distinct ids
      before the unique one, and the digests before whatever reads or comments them. */
  lemma StatementNeeds(s: Step, db: Database)
    ensures !Refused(s, db) <==>
              match s
              case OwnIndex(t) =>
                t in db.owned ==>
                  && db.owned[t].column
                  && forall i, j :: 0 <= i < j < |db.owned[t].ids| && db.owned[t].ids[i] == db.owned[t].ids[j] ==>
                       db.owned[t].ids[i] == None
              case BackfillSelection(w, _) =>
                Table(db, w).Some? ==>
                  var t := Table(db, w).value;
                  t.summaryIds.Present? && t.policy.Present? && t.fingerprint.Present?
              case HardenSummaryIds(w) =>
                Table(db, w).Some? ==>
                  var t := Table(db, w).value;
                  t.summaryIds.Present? && forall id :: id in t.rows ==> t.rows[id].summaryIds.Some?
              case HardenPolicy(w) =>
                Table(db, w).Some? ==>
                  var t := Table(db, w).value;
                  t.policy.Present? && forall id :: id in t.rows ==> t.rows[id].policy.Some?
              case IndexSelection(w) => Table(db, w).Some? ==> Table(db, w).value.fingerprint.Present?
              case BackfillScript(_) =>
                db.scripts.Some? ==>
                  && db.digests.Some? && db.digests.value.fingerprint.Present?
                  && db.scripts.value.available.Present? && db.scripts.value.cited.Present?
                  && db.scripts.value.fingerprint.Present?
              case HardenAvailable =>
                db.scripts.Some? ==>
                  && db.scripts.value.available.Present?
                  && forall id :: id in db.scripts.value.rows ==> db.scripts.value.rows[id].available.Some?
              case HardenCited =>
                db.scripts.Some? ==>
                  && db.scripts.value.cited.Present?
                  && forall id :: id in db.scripts.value.rows ==> db.scripts.value.rows[id].cited.Some?
              case IndexScripts => db.scripts.Some? ==> db.scripts.value.fingerprint.Present?
              case Comment(w, c) =>
                && db.postgres && Table(db, w).Some?
                && (c == SummaryIds ==> Table(db, w).value.summaryIds.Present?)
                && (c == Fingerprint ==> Table(db, w).value.fingerprint.Present?)
                && (c == Policy ==> Table(db, w).value.policy.Present?)
              case _ => true
  {
  }

  lemma StepKeepsUpgradable(sha: Digester, s: Step, db: Database)
    ensures Upgradable(Attempt(sha, s, db)) <==> Upgradable(db)
  {
    hide SelectionStep, ScriptStep, Unique;
    var next := Attempt(sha, s, db);
    assert next.owned.Keys == db.owned.Keys;
    forall t | t in db.owned
      ensures next.owned[t].index || Unique(OperationIds(next.owned[t])) <==> db.owned[t].index || Unique(OperationIds(db.owned[t]))
    {
    }
  }

  /** No interrupted run leads into or out of the states that can be upgraded. */
  lemma {:induction false} UpgradableUnmoved(sha: Digester, interrupted: seq<Step>, db: Database)
    ensures Upgradable(Exec(sha, interrupted, db)) <==> Upgradable(db)
    decreases |interrupted|
  {
    hide Upgradable, Attempt;
    if interrupted != [] {
      StepKeepsUpgradable(sha, interrupted[0], db);
      UpgradableUnmoved(sha, interrupted[1..], Attempt(sha, interrupted[0], db));
    }
  }

  // -----------------------------------------------------------------------------------------
  // What every moment of every run keeps, and what the end guarantees

  ghost predicate Keeps(before: Option<SelectionTable>, after: Option<SelectionTable>) {
    && (before.Some? <==> after.Some?)
    && (before.Some? ==>
          && before.value.rows.Keys == after.value.rows.Keys
          && forall id :: id in before.value.rows ==>
               var (b, a) := (before.value.rows[id], after.value.rows[id]);
               && a.contentIds == b.contentIds
               && (b.summaryIds.Some? ==> a.summaryIds == b.summaryIds)
               && (NonEmptyPolicy(b.policy) ==> a.policy == b.policy)
               && (Truthy(b.fingerprint) ==> a.fingerprint == b.fingerprint))
  }

  ghost predicate KeepsScripts(before: Option<ScriptTable>, after: Option<ScriptTable>) {
    && (before.Some? <==> after.Some?)
    && (before.Some? ==>
          && before.value.rows.Keys == after.value.rows.Keys
          && forall id :: id in before.value.rows ==>
               var (b, a) := (before.value.rows[id], after.value.rows[id]);
               && a.digestId == b.digestId && a.newsletterIds == b.newsletterIds
               && (b.available.Some? ==> a.available == b.available)
               && (b.cited.Some? ==> a.cited == b.cited)
               && (Truthy(b.fingerprint) ==> a.fingerprint == b.fingerprint))
  }

  ghost predicate KeepsAll(before: Database, after: Database) {
    && Keeps(before.digests, after.digests)
    && Keeps(before.analyses, after.analyses)
    && KeepsScripts(before.scripts, after.scripts)
  }

  /** Fingerprints, non-empty policies and id lists already set are never changed, and no row is
      lost, at any point of any run, in any of the three tables. */
  lemma {:induction false} ExistingProvenanceKept(sha: Digester, steps: seq<Step>, db: Database)
    ensures KeepsAll(db, Exec(sha, steps, db))
    decreases |steps|
  {
    hide KeepsAll, Attempt;
    if steps != [] {
      var next := Attempt(sha, steps[0], db);
      StepKeepsProvenance(sha, steps[0], db);
      ExistingProvenanceKept(sha, steps[1..], next);
      KeepsTransitive(db, next, Exec(sha, steps, db));
    } else {
      KeepsReflexive(db);
    }
  }

  lemma KeepsReflexive(db: Database)
    ensures KeepsAll(db, db)
  {
  }

  lemma StepKeepsProvenance(sha: Digester, s: Step, db: Database)
    ensures KeepsAll(db, Attempt(sha, s, db))
  {
    hide SelectionStep, ScriptStep, Keeps, KeepsScripts, Refused;
    if db.digests.Some? { SelectionStepKeeps(sha, s, db.digests.value); }
    if db.analyses.Some? { SelectionStepKeeps(sha, s, db.analyses.value); }
    if db.scripts.Some? { ScriptStepKeeps(db.digests, s, db.scripts.value); }
    assert KeepsAll(db, db) by { KeepsReflexive(db); }
  }

  lemma SelectionStepKeeps(sha: Digester, s: Step, t: SelectionTable)
    ensures Keeps(Some(t), Some(SelectionStep(sha, s, t)))
  {
  }

  lemma ScriptStepKeeps(digests: Option<SelectionTable>, s: Step, t: ScriptTable)
    ensures KeepsScripts(Some(t), Some(ScriptStep(digests, s, t)))
  {
  }

  lemma KeepsTransitive(a: Database, b: Database, c: Database)
    requires KeepsAll(a, b) && KeepsAll(b, c)
    ensures KeepsAll(a, c)
  {
  }

  /** Because digests come first, every script whose digest exists ends with a fingerprint: the one
      it had, or else the one its digest ends with. */
  lemma ScriptsInheritFingerprints(sha: Digester, interrupted: seq<Step>, db: Database, id: int)
    requires Sound(sha) && db.scripts.Some? && db.digests.Some? && id in db.scripts.value.rows
    requires db.scripts.value.rows[id].digestId.Some?
    requires db.scripts.value.rows[id].digestId.value in db.digests.value.rows
    ensures var r := Upgraded(sha, Exec(sha, interrupted, db));
            var digestId := db.scripts.value.rows[id].digestId.value;
            && r.scripts.Some? && id in r.scripts.value.rows && Truthy(r.scripts.value.rows[id].fingerprint)
            && r.digests.Some? && digestId in r.digests.value.rows
            && r.scripts.value.rows[id].fingerprint
               == if Truthy(db.scripts.value.rows[id].fingerprint) then db.scripts.value.rows[id].fingerprint
                  else r.digests.value.rows[digestId].fingerprint
  {
    RestartSafe(sha, interrupted, db);
    var digest := db.digests.value.rows[db.scripts.value.rows[id].digestId.value];
    assert Truthy(BackfilledSelection(sha, digest).fingerprint);
  }

  /** What every script ends with, field by field: the lists it had; in place of a missing list of
      available ids its newsletter ids, and of cited ids none. */
  lemma {:induction false} ScriptsEndWith(sha: Digester, interrupted: seq<Step>, db: Database, id: int)
    requires Sound(sha) && db.scripts.Some? && id in db.scripts.value.rows
    ensures var before := db.scripts.value.rows[id];
            var r := Upgraded(sha, Exec(sha, interrupted, db));
            && r.scripts.Some? && r.scripts.value.rows.Keys == db.scripts.value.rows.Keys
            && var after := r.scripts.value.rows[id];
            && after.digestId == before.digestId && after.newsletterIds == before.newsletterIds
            && after.available == (if before.available.Some? then before.available
                                   else if before.newsletterIds.Some? then before.newsletterIds
                                   else Some([]))
            && after.cited == (if before.cited.Some? then before.cited else Some([]))
  {
    RestartSafe(sha, interrupted, db);
  }

  /** What every row of a selection table ends with: the summary ids it had or else none; the policy
      it had, unless that was missing or empty, or else the legacy policy; the fingerprint it had,
      unless that was missing or empty, or else that of these. */
  lemma {:induction false} SelectionsEndWith(sha: Digester, interrupted: seq<Step>, db: Database, w: Which, id: int)
    requires Sound(sha) && Table(db, w).Some? && id in Table(db, w).value.rows
    ensures var before := Table(db, w).value.rows[id];
            var r := Upgraded(sha, Exec(sha, interrupted, db));
            var end := if w == Analyses then r.analyses else r.digests;
            && end.Some? && end.value.rows.Keys == Table(db, w).value.rows.Keys
            && var after := end.value.rows[id];
            && after.contentIds == before.contentIds
            && after.summaryIds == Some(if before.summaryIds.Some? then before.summaryIds.value else [])
            && after.policy == Some(if before.policy.Some? && before.policy.value != map[] then before.policy.value
                                    else map["schema_version" := JNumber(0.0), "provenance" := JString("legacy-v0"),
                                             "date_basis" := JString("published_date"),
                                             "start_inclusive" := JBool(true), "end_exclusive" := JBool(false)])
            && after.fingerprint == (if before.fingerprint.Some? && before.fingerprint.value != "" then before.fingerprint
                                     else Some(sha(after.policy.value,
                                                   if before.contentIds.Some? then before.contentIds.value else [],
                                                   after.summaryIds.value)))
  {
    RestartSafe(sha, interrupted, db);
  }

  /** The columns a complete run leaves: not null, with the migration's default, unless they were
      not null with a default already; a fingerprint column is added nullable. */
  lemma {:induction false} ColumnsEndTightened(sha: Digester, interrupted: seq<Step>, db: Database, w: Which)
    requires Sound(sha)
    ensures var r := Upgraded(sha, Exec(sha, interrupted, db));
            && (Table(db, w).Some? ==>
                  && Table(r, w).Some? && var (before, after) := (Table(db, w).value, Table(r, w).value);
                  && Tightened(before.summaryIds, after.summaryIds, "[]")
                  && Tightened(before.policy, after.policy, POLICY_DEFAULT)
                  && after.fingerprint == (if before.fingerprint.Missing? then Present(true, None) else before.fingerprint)
                  && after.indexed)
            && (db.scripts.Some? ==>
                  && r.scripts.Some? && var (before, after) := (db.scripts.value, r.scripts.value);
                  && Tightened(before.available, after.available, "[]")
                  && Tightened(before.cited, after.cited, "[]")
                  && after.fingerprint == (if before.fingerprint.Missing? then Present(true, None) else before.fingerprint)
                  && after.indexed)
  {
    RestartSafe(sha, interrupted, db);
  }

  /** The ownership columns a complete run leaves, the values of a column that was there unchanged,
      and the comments. */
  lemma {:induction false} OwnershipEnds(sha: Digester, interrupted: seq<Step>, db: Database, t: string)
    requires Sound(sha)
    ensures var r := Upgraded(sha, Exec(sha, interrupted, db));
            && r.owned.Keys == db.owned.Keys
            && (t in db.owned ==>
                  && r.owned[t].column && r.owned[t].index && |r.owned[t].ids| == |db.owned[t].ids|
                  && forall i :: 0 <= i < |db.owned[t].ids| ==>
                       r.owned[t].ids[i] == if db.owned[t].column then db.owned[t].ids[i] else None)
            && forall w, c :: (w, c) in r.comments <==>
                 (w, c) in db.comments || (db.postgres && Table(db, w).Some?)
  {
    RestartSafe(sha, interrupted, db);
    hide UpgradedSelection, UpgradedScripts;
    forall w, c
      ensures (w, c) in AllComments(db) <==> db.postgres && Table(db, w).Some?
    {
      assert c == SummaryIds || c == Fingerprint || c == Policy;
    }
  }

  /** The condition for the upgrade, on the rows: where an ownership column is still to be indexed no
      two rows carry the same id, and the digests table is there if scripts or comments need it. */
  lemma UpgradableExactly(db: Database)
    ensures Upgradable(db) <==>
              && (forall t, i, j | t in db.owned && 0 <= i < j < |db.owned[t].ids| ::
                    db.owned[t].column && !db.owned[t].index && db.owned[t].ids[i].Some? ==>
                      db.owned[t].ids[i] != db.owned[t].ids[j])
              && (db.digests.Some? || !(db.scripts.Some? || db.postgres))
  {
    forall t | t in db.owned
      ensures db.owned[t].index || Unique(OperationIds(db.owned[t])) <==>
                forall i, j | 0 <= i < j < |db.owned[t].ids| ::
                  db.owned[t].column && !db.owned[t].index && db.owned[t].ids[i].Some? ==>
                    db.owned[t].ids[i] != db.owned[t].ids[j]
    {
    }
  }

  predicate Tightened(before: Column, after: Column, default: string) {
    if before.Present? && !before.nullable && before.default.Some? then after == before
    else after == Present(false, Some(default))
  }

  /** A fingerprint the migration wrote can be recomputed from the finished row: it covers the
      policy, content ids and summary ids that are stored beside it. */
  lemma FingerprintRecomputable(sha: Digester, interrupted: seq<Step>, db: Database, id: int)
    requires Sound(sha) && db.digests.Some? && id in db.digests.value.rows
    requires !Truthy(db.digests.value.rows[id].fingerprint)
    ensures var r := Upgraded(sha, Exec(sha, interrupted, db));
            && r.digests.Some? && id in r.digests.value.rows
            && var row := r.digests.value.rows[id];
            && row.policy.Some? && row.policy.value != map[] && row.summaryIds.Some?
            && row.contentIds == db.digests.value.rows[id].contentIds
            && row.fingerprint == Some(sha(row.policy.value, OrEmpty(row.contentIds), row.summaryIds.value))
  {
    hide Exec;
    RestartSafe(sha, interrupted, db);
    assert "schema_version" in LEGACY_POLICY;
  }

  /** The other order would not do: a script reached before its bare digest stays bare. */
  lemma ScriptsFirstStayBare(sha: Digester, db: Database, id: int)
    requires db.scripts.Some? && id in db.scripts.value.rows && !Truthy(db.scripts.value.rows[id].fingerprint)
    ensures Truthy(Apply(sha, BackfillScript(id), db).scripts.value.rows[id].fingerprint)
       <==> Truthy(DigestFingerprint(db.digests, db.scripts.value.rows[id].digestId))
  {
  }

  // -----------------------------------------------------------------------------------------
  // The migration itself

  predicate Enumerates(order: seq<int>, ids: set<int>) {
    && (forall i, j :: 0 <= i < j < |order| ==> order[i] != order[j])
    && ids == set i | 0 <= i < |order| :: order[i]
  }

  function WithColumns(t: SelectionTable): (r: SelectionTable) {
    t.(summaryIds := Added(t.summaryIds), policy := Added(t.policy), fingerprint := Added(t.fingerprint))
  }

  function WithConstraints(t: SelectionTable): (r: SelectionTable) {
    t.(summaryIds := Hardened(t.summaryIds, EMPTY_LIST_DEFAULT), policy := Hardened(t.policy, POLICY_DEFAULT), indexed := true)
  }

  function BackfilledRows(sha: Digester, rows: map<int, SelectionRow>, done: seq<int>): (r: map<int, SelectionRow>) {
    map id | id in rows :: if id in done then BackfilledSelection(sha, rows[id]) else rows[id]
  }

  lemma NothingBackfilled(sha: Digester, w: Which, db: Database)
    requires Table(db, w).Some?
    ensures db == WithTable(db, w, Table(db, w).value.(rows := BackfilledRows(sha, Table(db, w).value.rows, [])))
  {
    assert BackfilledRows(sha, Table(db, w).value.rows, []) == Table(db, w).value.rows;
  }

  lemma BackfillOneMore(sha: Digester, w: Which, db: Database, table: SelectionTable, done: seq<int>, id: int)
    requires id in table.rows && id !in done && table == WithColumns(table)
    ensures var now := WithTable(db, w, table.(rows := BackfilledRows(sha, table.rows, done)));
            && !Refused(BackfillSelection(w, id), now)
            && Apply(sha, BackfillSelection(w, id), now)
               == WithTable(db, w, table.(rows := BackfilledRows(sha, table.rows, done + [id])))
  {
    hide BackfilledSelection;
    assert BackfilledRows(sha, table.rows, done + [id])
        == BackfilledRows(sha, table.rows, done)[id := BackfilledSelection(sha, table.rows[id])];
  }

  lemma AllRowsBackfilled(sha: Digester, rows: map<int, SelectionRow>, order: seq<int>)
    requires Enumerates(order, rows.Keys)
    ensures BackfilledRows(sha, rows, order) == map id | id in rows :: BackfilledSelection(sha, rows[id])
  {
  }

  function WithScriptColumns(t: ScriptTable): (r: ScriptTable) {
    t.(available := Added(t.available), cited := Added(t.cited), fingerprint := Added(t.fingerprint))
  }

  function WithScriptConstraints(t: ScriptTable): (r: ScriptTable) {
    t.(available := Hardened(t.available, EMPTY_LIST_DEFAULT), cited := Hardened(t.cited, EMPTY_LIST_DEFAULT), indexed := true)
  }

  function BackfilledScriptRows(digests: Option<SelectionTable>, rows: map<int, ScriptRow>, done: seq<int>)
    : (r: map<int, ScriptRow>)
  {
    map id | id in rows :: if id in done then BackfilledScript(digests, rows[id]) else rows[id]
  }

  lemma NoScriptBackfilled(digests: Option<SelectionTable>, rows: map<int, ScriptRow>)
    ensures BackfilledScriptRows(digests, rows, []) == rows
  {
  }

  lemma BackfillOneMoreScript(sha: Digester, db: Database, table: ScriptTable, done: seq<int>, id: int)
    requires id in table.rows && id !in done && table == WithScriptColumns(table)
    requires db.digests.Some? && db.digests.value.fingerprint.Present?
    ensures var now := db.(scripts := Some(table.(rows := BackfilledScriptRows(db.digests, table.rows, done))));
            && !Refused(BackfillScript(id), now)
            && Apply(sha, BackfillScript(id), now)
               == db.(scripts := Some(table.(rows := BackfilledScriptRows(db.digests, table.rows, done + [id]))))
  {
    hide BackfilledScript;
    assert BackfilledScriptRows(db.digests, table.rows, done + [id])
        == BackfilledScriptRows(db.digests, table.rows, done)[id := BackfilledScript(db.digests, table.rows[id])];
  }

  lemma AllScriptsBackfilled(digests: Option<SelectionTable>, rows: map<int, ScriptRow>, order: seq<int>)
    requires Enumerates(order, rows.Keys)
    ensures BackfilledScriptRows(digests, rows, order) == map id | id in rows :: BackfilledScript(digests, rows[id])
  {
  }

  const OPERATION_OWNED: seq<string> := ["theme_analyses", "digests", "podcast_scripts", "podcasts", "audio_digests"]

  function OwnedUpTo(owned: map<string, Ownership>, done: seq<string>): (r: map<string, Ownership>) {
    map t | t in owned :: if t in done then Owned(owned[t]) else owned[t]
  }

  lemma NothingOwned(owned: map<string, Ownership>)
    ensures OwnedUpTo(owned, []) == owned
  {
  }

  lemma AllOwned(owned: map<string, Ownership>)
    requires forall t :: t in owned ==> t in OPERATION_OWNED
    ensures OwnedUpTo(owned, OPERATION_OWNED) == map t | t in owned :: Owned(owned[t])
  {
  }

  lemma OwnOneMore(owned: map<string, Ownership>, done: seq<string>, table: string)
    requires table !in done
    ensures OwnedUpTo(owned, done).Keys == owned.Keys
    ensures table in owned ==> OwnedUpTo(owned, done)[table] == owned[table]
    ensures OwnedUpTo(owned, done + [table])
         == if table in owned then OwnedUpTo(owned, done)[table := Owned(owned[table])] else OwnedUpTo(owned, done)
  {
  }

  class Migration {
    var db: Database

    /** A statement that the database is known to admit. */
    method Write(sha: Digester, s: Step)
      requires !Refused(s, db)
      modifies this
      ensures db == Apply(sha, s, old(db))
    {
      db := Apply(sha, s, db);
    }

    /** A statement that the database may refuse; the migration then stops. */
    method TryWrite(sha: Digester, s: Step) returns (ok: bool)
      modifies this
      ensures ok <==> !Refused(s, old(db))
      ensures db == Attempt(sha, s, old(db))
    {
      ok := !Refused(s, db);
      if ok { db := Apply(sha, s, db); }
    }

    /** _ensure_operation_ownership: it fails exactly on repeated ids that no index kept out. */
    method EnsureOwnership(sha: Digester, table: string) returns (ok: bool)
      requires table in db.owned
      modifies this
      ensures var o := old(db).owned[table];
              && (ok <==> o.index || Unique(OperationIds(o)))
              && db == old(db).(owned := old(db).owned[table :=
                         if ok then Owned(o) else o.(column := true, ids := OperationIds(o))])
    {
      hide Unique;
      ok := true;
      if !db.owned[table].column {
        Write(sha, OwnColumn(table));
      }
      if !db.owned[table].index {
        ok := TryWrite(sha, OwnIndex(table));
      }
    }

    method EnsureAllOwnership(sha: Digester) returns (ok: bool)
      requires forall t :: t in db.owned ==> t in OPERATION_OWNED
      modifies this
      ensures ok <==> forall t :: t in old(db).owned ==> old(db).owned[t].index || Unique(OperationIds(old(db).owned[t]))
      ensures ok ==> db == old(db).(owned := map t | t in old(db).owned :: Owned(old(db).owned[t]))
      ensures !ok ==> exists t :: t in db.owned && !db.owned[t].index && !Unique(OperationIds(db.owned[t]))
    {
      hide Apply, Refused, OwnedUpTo, Unique, OperationIds, Owned;
      ok := true;
      var i := 0;
      NothingOwned(db.owned);
      while i < |OPERATION_OWNED|
        invariant 0 <= i <= |OPERATION_OWNED|
        invariant db == old(db).(owned := OwnedUpTo(old(db).owned, OPERATION_OWNED[..i]))
        invariant forall k :: 0 <= k < i && OPERATION_OWNED[k] in old(db).owned ==>
                    old(db).owned[OPERATION_OWNED[k]].index || Unique(OperationIds(old(db).owned[OPERATION_OWNED[k]]))
      {
        assert OPERATION_OWNED[..i + 1] == OPERATION_OWNED[..i] + [OPERATION_OWNED[i]];
        assert OPERATION_OWNED[i] !in OPERATION_OWNED[..i];
        OwnOneMore(old(db).owned, OPERATION_OWNED[..i], OPERATION_OWNED[i]);
        if OPERATION_OWNED[i] in db.owned {
          ghost var before := db.owned[OPERATION_OWNED[i]];
          ok := EnsureOwnership(sha, OPERATION_OWNED[i]);
          if !ok {
            ColumnKeepsIds(before);
            assert !db.owned[OPERATION_OWNED[i]].index;
            return;
          }
        }
        i := i + 1;
      }
      assert OPERATION_OWNED[..i] == OPERATION_OWNED;
      AllOwned(old(db).owned);
    }

    method AddSelectionColumns(sha: Digester, w: Which)
      requires Table(db, w).Some?
      modifies this
      ensures db == WithTable(old(db), w, WithColumns(Table(old(db), w).value))
    {
      hide UpgradedSelection, BackfilledSelection;
      if Table(db, w).value.summaryIds.Missing? { Write(sha, AddSummaryIds(w)); }
      if Table(db, w).value.fingerprint.Missing? { Write(sha, AddFingerprint(w)); }
      if Table(db, w).value.policy.Missing? { Write(sha, AddPolicy(w)); }
    }

    /** _backfill_digests and _backfill_theme_analyses: rows in the order the query returns them. */
    method BackfillSelections(sha: Digester, w: Which, order: seq<int>)
      requires Table(db, w).Some? && Enumerates(order, Table(db, w).value.rows.Keys)
      requires Table(db, w).value == WithColumns(Table(db, w).value)
      modifies this
      ensures db == WithTable(old(db), w, Table(old(db), w).value.(rows :=
                BackfilledRows(sha, Table(old(db), w).value.rows, order)))
    {
      hide BackfilledRows, WithTable, Apply, Refused;
      ghost var before := db;
      var table := Table(db, w).value;
      var i := 0;
      NothingBackfilled(sha, w, db);
      while i < |order|
        invariant 0 <= i <= |order|
        invariant db == WithTable(old(db), w, table.(rows := BackfilledRows(sha, table.rows, order[..i])))
      {
        assert order[..i + 1] == order[..i] + [order[i]];
        BackfillOneMore(sha, w, before, table, order[..i], order[i]);
        Write(sha, BackfillSelection(w, order[i]));
        i := i + 1;
      }
      assert order[..i] == order;
    }

    method HardenSelection(sha: Digester, w: Which)
      requires Table(db, w).Some? && Table(db, w).value == WithColumns(Table(db, w).value)
      requires forall id :: id in Table(db, w).value.rows ==>
                 Table(db, w).value.rows[id].summaryIds.Some? && Table(db, w).value.rows[id].policy.Some?
      modifies this
      ensures db == WithTable(old(db), w, WithConstraints(Table(old(db), w).value))
    {
      hide UpgradedSelection, BackfilledSelection;
      var table := Table(db, w).value;
      if table.summaryIds.nullable || table.summaryIds.default.None? { Write(sha, HardenSummaryIds(w)); }
      if table.policy.nullable || table.policy.default.None? { Write(sha, HardenPolicy(w)); }
      if !table.indexed { Write(sha, IndexSelection(w)); }
    }

    method UpgradeSelection(sha: Digester, w: Which, order: seq<int>)
      requires Table(db, w).Some? && Enumerates(order, Table(db, w).value.rows.Keys)
      modifies this
      ensures db == WithTable(old(db), w, UpgradedSelection(sha, Table(old(db), w).value))
    {
      ghost var table := Table(db, w).value;
      AddSelectionColumns(sha, w);
      BackfillSelections(sha, w, order);
      AllRowsBackfilled(sha, table.rows, order);
      HardenSelection(sha, w);
    }

    method AddScriptColumns(sha: Digester)
      requires db.scripts.Some?
      modifies this
      ensures db == old(db).(scripts := Some(WithScriptColumns(old(db).scripts.value)))
    {
      hide BackfilledScript;
      if db.scripts.value.available.Missing? { Write(sha, AddAvailable); }
      if db.scripts.value.cited.Missing? { Write(sha, AddCited); }
      if db.scripts.value.fingerprint.Missing? { Write(sha, AddScriptFingerprint); }
    }

    /** _backfill_podcast_scripts */
    method BackfillScripts(sha: Digester, order: seq<int>)
      requires db.scripts.Some? && Enumerates(order, db.scripts.value.rows.Keys)
      requires db.digests.Some? && db.digests.value.fingerprint.Present?
      requires db.scripts.value == WithScriptColumns(db.scripts.value)
      modifies this
      ensures db == old(db).(scripts := Some(old(db).scripts.value.(rows :=
                BackfilledScriptRows(old(db).digests, old(db).scripts.value.rows, order))))
    {
      hide BackfilledScriptRows, Apply, Refused;
      var table := db.scripts.value;
      ghost var before := db;
      var i := 0;
      NoScriptBackfilled(db.digests, table.rows);
      while i < |order|
        invariant 0 <= i <= |order|
        invariant db == before.(scripts := Some(table.(rows := BackfilledScriptRows(before.digests, table.rows, order[..i]))))
      {
        assert order[..i + 1] == order[..i] + [order[i]];
        BackfillOneMoreScript(sha, before, table, order[..i], order[i]);
        Write(sha, BackfillScript(order[i]));
        i := i + 1;
      }
      assert order[..i] == order;
    }

    method HardenScripts(sha: Digester)
      requires db.scripts.Some? && db.scripts.value == WithScriptColumns(db.scripts.value)
      requires forall id :: id in db.scripts.value.rows ==>
                 db.scripts.value.rows[id].available.Some? && db.scripts.value.rows[id].cited.Some?
      modifies this
      ensures db == old(db).(scripts := Some(WithScriptConstraints(old(db).scripts.value)))
    {
      hide BackfilledScript;
      var table := db.scripts.value;
      if table.available.nullable || table.available.default.None? { Write(sha, HardenAvailable); }
      if table.cited.nullable || table.cited.default.None? { Write(sha, HardenCited); }
      if !table.indexed { Write(sha, IndexScripts); }
    }

    /** The backfill selects the digests before any script, whether or not there are scripts. */
    method UpgradeScripts(sha: Digester, order: seq<int>) returns (ok: bool)
      requires db.scripts.Some? && Enumerates(order, db.scripts.value.rows.Keys)
      requires db.digests.Some? ==> db.digests.value.fingerprint.Present?
      modifies this
      ensures ok <==> old(db).digests.Some?
      ensures db == old(db).(scripts := Some(if ok then UpgradedScripts(old(db).digests, old(db).scripts.value)
                                             else WithScriptColumns(old(db).scripts.value)))
    {
      ghost var table := db.scripts.value;
      AddScriptColumns(sha);
      if db.digests.None? { return false; }
      ok := true;
      BackfillScripts(sha, order);
      AllScriptsBackfilled(db.digests, table.rows, order);
      HardenScripts(sha);
    }

    /** The comments on one selection table; only the analyses are looked for first. */
    method CommentTable(sha: Digester, w: Which) returns (ok: bool)
      requires db.postgres && (Table(db, w).Some? ==> Table(db, w).value == WithColumns(Table(db, w).value))
      modifies this
      ensures ok <==> Table(old(db), w).Some?
      ensures db == if ok then old(db).(comments := old(db).comments + TableComments(w)) else old(db)
    {
      hide UpgradedSelection, BackfilledSelection;
      ok := TryWrite(sha, Comment(w, SummaryIds));
      if !ok { return; }
      Write(sha, Comment(w, Fingerprint));
      Write(sha, Comment(w, Policy));
      assert old(db).comments + TableComments(w)
          == old(db).comments + {(w, SummaryIds)} + {(w, Fingerprint)} + {(w, Policy)};
    }

    /** The whole upgrade: it goes through exactly from the states that can be upgraded, and then
        reaches the upgraded schema and data. Where it stops, running it again is no use. */
    method Upgrade(sha: Digester, analysesOrder: seq<int>, digestsOrder: seq<int>, scriptsOrder: seq<int>)
      returns (ok: bool)
      requires forall t :: t in db.owned ==> t in OPERATION_OWNED
      requires db.analyses.Some? ==> Enumerates(analysesOrder, db.analyses.value.rows.Keys)
      requires db.digests.Some? ==> Enumerates(digestsOrder, db.digests.value.rows.Keys)
      requires db.scripts.Some? ==> Enumerates(scriptsOrder, db.scripts.value.rows.Keys)
      modifies this
      ensures ok <==> Upgradable(old(db))
      ensures ok ==> db == Upgraded(sha, old(db))
      ensures !ok ==> !Upgradable(db)
    {
      hide BackfilledSelection, BackfilledScript, UpgradedScripts, Owned, Unique, OperationIds;
      ok := EnsureAllOwnership(sha);
      if !ok { return; }
      if db.analyses.Some? { UpgradeSelection(sha, Analyses, analysesOrder); }
      if db.digests.Some? { UpgradeSelection(sha, Digests, digestsOrder); }
      if db.scripts.Some? {
        ok := UpgradeScripts(sha, scriptsOrder);
        if !ok { return; }
      }
      if db.postgres {
        if db.analyses.Some? { ok := CommentTable(sha, Analyses); }
        ok := CommentTable(sha, Digests);
      }
    }
  }
}
