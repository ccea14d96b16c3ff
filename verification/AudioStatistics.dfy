/** Audio-digest statistics: one grouped query folded in a loop, against counting the rows directly. */
module AudioStatistics {
  import opened SqlLogic

  datatype Status = Pending | Processing | Completed | Failed

  datatype Key = Key(status: Status, voice: Option<string>, provider: Option<string>)

  datatype Digest = Digest(key: Key, duration: Option<real>)

  /** A row of the grouped query: count(id) and sum(duration_seconds), null when all are. */
  datatype Group = Group(key: Key, count: nat, durationSum: Option<real>)

  datatype Statistics = Statistics(
    total: nat,
    generating: nat,
    completed: nat,
    failed: nat,
    totalDuration: real,
    byVoice: map<string, nat>,
    byProvider: map<string, nat>)

  /** The two tabulated columns; null and empty names are not tabulated. */
  datatype Dimension = Voice | Provider

  function NameOf(d: Dimension, k: Key): (name: Option<string>) {
    var name := if d.Voice? then k.voice else k.provider;
    if name == Some("") then None else name
  }

  type Selection = Key -> bool

  function Everything(): (p: Selection) { (k: Key) => true }
  function WithStatus(s: Status): (p: Selection) { (k: Key) => k.status == s }
  function WithName(d: Dimension, v: string): (p: Selection) { (k: Key) => NameOf(d, k) == Some(v) }
  function WithKey(key: Key): (p: Selection) { (k: Key) => k == key }

  // -----------------------------------------------------------------------------------------
  // Direct queries over the rows

  function Count(rows: seq<Digest>, p: Selection): (n: nat) {
    if rows == [] then 0 else Count(rows[..|rows| - 1], p) + (if p(rows[|rows| - 1].key) then 1 else 0)
  }

  function Seconds(d: Option<real>): (r: real) {
    if d.Some? then d.value else 0.0
  }

  function Duration(rows: seq<Digest>, p: Selection): (r: real) {
    if rows == [] then 0.0
    else Duration(rows[..|rows| - 1], p) + (if p(rows[|rows| - 1].key) then Seconds(rows[|rows| - 1].duration) else 0.0)
  }

  predicate SomeDuration(rows: seq<Digest>, key: Key) {
    exists i | 0 <= i < |rows| :: rows[i].key == key && rows[i].duration.Some?
  }

  /** The rows that do not belong to a group. */
  function Without(rows: seq<Digest>, key: Key): (r: seq<Digest>) {
    if rows == [] then []
    else Without(rows[..|rows| - 1], key) + (if rows[|rows| - 1].key == key then [] else [rows[|rows| - 1]])
  }

  /** What GROUP BY status, voice, provider returns, in any order. */
  ghost predicate IsGrouping(rows: seq<Digest>, groups: seq<Group>) {
    && (forall i, j :: 0 <= i < j < |groups| ==> groups[i].key != groups[j].key)
    && (forall i :: 0 <= i < |groups| ==>
          && groups[i].count == Count(rows, WithKey(groups[i].key)) > 0
          && groups[i].durationSum == if SomeDuration(rows, groups[i].key)
                                      then Some(Duration(rows, WithKey(groups[i].key))) else None)
    && (forall r :: 0 <= r < |rows| ==> exists i :: 0 <= i < |groups| && groups[i].key == rows[r].key)
  }

  // -----------------------------------------------------------------------------------------
  // The fold

  function GroupCount(groups: seq<Group>, p: Selection): (n: nat) {
    if groups == [] then 0
    else GroupCount(groups[..|groups| - 1], p) + (if p(groups[|groups| - 1].key) then groups[|groups| - 1].count else 0)
  }

  function GroupDuration(groups: seq<Group>, p: Selection): (r: real) {
    if groups == [] then 0.0
    else GroupDuration(groups[..|groups| - 1], p)
         + (if p(groups[|groups| - 1].key) then Seconds(groups[|groups| - 1].durationSum) else 0.0)
  }

  ghost function Names(d: Dimension, groups: seq<Group>): (r: set<string>) {
    set i | 0 <= i < |groups| && NameOf(d, groups[i].key).Some? :: NameOf(d, groups[i].key).value
  }

  ghost predicate Tabulates(table: map<string, nat>, d: Dimension, groups: seq<Group>) {
    table.Keys == Names(d, groups) && forall v :: v in table ==> table[v] == GroupCount(groups, WithName(d, v))
  }

  lemma {:induction false} NoCountWithoutName(d: Dimension, groups: seq<Group>, v: string)
    requires v !in Names(d, groups)
    ensures GroupCount(groups, WithName(d, v)) == 0
  {
    if groups != [] {
      var init, last := groups[..|groups| - 1], groups[|groups| - 1];
      assert forall i :: 0 <= i < |init| ==> groups[i] == init[i];
      assert v !in Names(d, init);
      NoCountWithoutName(d, init, v);
      assert groups[|groups| - 1] == last;
    }
  }

  lemma NamesAppend(d: Dimension, groups: seq<Group>, g: Group)
    ensures Names(d, groups + [g]) == Names(d, groups) + if NameOf(d, g.key).Some? then {NameOf(d, g.key).value} else {}
  {
    var more := groups + [g];
    assert more[|groups|] == g;
    forall v ensures v in Names(d, more) <==> v in Names(d, groups) || NameOf(d, g.key) == Some(v) {
      if v in Names(d, groups) {
        var i :| 0 <= i < |groups| && NameOf(d, groups[i].key) == Some(v);
        assert more[i] == groups[i];
      }
      if v in Names(d, more) {
        var i :| 0 <= i < |more| && NameOf(d, more[i].key) == Some(v);
        if i < |groups| { assert more[i] == groups[i]; }
      }
    }
  }

  /** table[name] = table.get(name, 0) + count, when there is a name. */
  method Tabulate(table: map<string, nat>, d: Dimension, g: Group, ghost before: seq<Group>)
    returns (r: map<string, nat>)
    requires Tabulates(table, d, before)
    ensures Tabulates(r, d, before + [g])
  {
    hide Names, NameOf;
    NamesAppend(d, before, g);
    assert (before + [g])[..|before|] == before;
    var name := NameOf(d, g.key);
    if name.None? {
      return table;
    }
    if name.value !in table { NoCountWithoutName(d, before, name.value); }
    r := table[name.value := (if name.value in table then table[name.value] else 0) + g.count];
  }

  lemma OneGroupMore(groups: seq<Group>, i: nat, p: Selection)
    requires i < |groups|
    ensures GroupCount(groups[..i + 1], p) == GroupCount(groups[..i], p) + if p(groups[i].key) then groups[i].count else 0
    ensures GroupDuration(groups[..i + 1], p)
         == GroupDuration(groups[..i], p) + if p(groups[i].key) then Seconds(groups[i].durationSum) else 0.0
  {
    assert groups[..i + 1][..i] == groups[..i];
  }

  lemma NoGroups(p: Selection)
    ensures GroupCount([], p) == 0 && GroupDuration([], p) == 0.0
  {
  }

  method Fold(groups: seq<Group>) returns (s: Statistics)
    ensures s.total == GroupCount(groups, Everything())
    ensures s.generating == GroupCount(groups, WithStatus(Pending)) + GroupCount(groups, WithStatus(Processing))
    ensures s.completed == GroupCount(groups, WithStatus(Completed))
    ensures s.failed == GroupCount(groups, WithStatus(Failed))
    ensures s.totalDuration == GroupDuration(groups, WithStatus(Completed))
    ensures Tabulates(s.byVoice, Voice, groups)
    ensures Tabulates(s.byProvider, Provider, groups)
  {
    hide Tabulates, GroupCount, GroupDuration;
    forall p: Selection { NoGroups(p); }
    var total := 0;
    var statusMap: map<Status, nat> := map[Pending := 0, Processing := 0, Completed := 0, Failed := 0];
    var byVoice: map<string, nat>, byProvider: map<string, nat> := map[], map[];
    var totalDuration := 0.0;
    var i := 0;
    NothingTabulated();
    while i < |groups|
      invariant 0 <= i <= |groups|
      invariant total == GroupCount(groups[..i], Everything())
      invariant statusMap.Keys == {Pending, Processing, Completed, Failed}
      invariant forall st :: st in statusMap ==> statusMap[st] == GroupCount(groups[..i], WithStatus(st))
      invariant totalDuration == GroupDuration(groups[..i], WithStatus(Completed))
      invariant Tabulates(byVoice, Voice, groups[..i])
      invariant Tabulates(byProvider, Provider, groups[..i])
    {
      var g := groups[i];
      assert groups[..i + 1] == groups[..i] + [g];
      forall p: Selection { OneGroupMore(groups, i, p); }
      total := total + g.count;
      statusMap := statusMap[g.key.status := statusMap[g.key.status] + g.count];
      byVoice := Tabulate(byVoice, Voice, g, groups[..i]);
      byProvider := Tabulate(byProvider, Provider, g, groups[..i]);
      if g.key.status == Completed && g.durationSum.Some? {
        totalDuration := totalDuration + g.durationSum.value;
      }
      i := i + 1;
    }
    assert groups[..i] == groups;
    s := Statistics(total, statusMap[Pending] + statusMap[Processing], statusMap[Completed], statusMap[Failed],
                    totalDuration, byVoice, byProvider);
  }

  lemma NothingTabulated()
    ensures Tabulates(map[], Voice, []) && Tabulates(map[], Provider, [])
  {
  }

  // -----------------------------------------------------------------------------------------
  // One pass equals the direct queries

  /** Taking one group's rows away changes every count by that group's share. */
  lemma {:induction false} WithoutShare(rows: seq<Digest>, key: Key, p: Selection)
    ensures Count(rows, p) == Count(Without(rows, key), p) + (if p(key) then Count(rows, WithKey(key)) else 0)
    ensures Duration(rows, p) == Duration(Without(rows, key), p) + (if p(key) then Duration(rows, WithKey(key)) else 0.0)
  {
    if rows != [] {
      var init, last := rows[..|rows| - 1], rows[|rows| - 1];
      WithoutShare(init, key, p);
      var rest := Without(rows, key);
      if last.key != key {
        assert rest[..|rest| - 1] == Without(init, key);
      } else {
        assert rest == Without(init, key);
      }
    }
  }

  lemma {:induction false} WithoutMembers(rows: seq<Digest>, key: Key, d: Digest)
    ensures d in Without(rows, key) <==> d in rows && d.key != key
  {
    if rows != [] {
      WithoutMembers(rows[..|rows| - 1], key, d);
      assert rows == rows[..|rows| - 1] + [rows[|rows| - 1]];
    }
  }

  /** The other groups are exactly the grouping of the remaining rows. */
  lemma GroupingOfRest(rows: seq<Digest>, groups: seq<Group>)
    requires IsGrouping(rows, groups) && groups != []
    ensures IsGrouping(Without(rows, groups[|groups| - 1].key), groups[..|groups| - 1])
  {
    var key := groups[|groups| - 1].key;
    var rest := Without(rows, key);
    var others := groups[..|groups| - 1];
    forall i | 0 <= i < |others|
      ensures Count(rest, WithKey(others[i].key)) == Count(rows, WithKey(others[i].key))
      ensures Duration(rest, WithKey(others[i].key)) == Duration(rows, WithKey(others[i].key))
      ensures SomeDuration(rest, others[i].key) <==> SomeDuration(rows, others[i].key)
    {
      WithoutShare(rows, key, WithKey(others[i].key));
      assert others[i].key != key;
      DurationsKept(rows, key, others[i].key);
    }
    forall r | 0 <= r < |rest|
      ensures exists i :: 0 <= i < |others| && others[i].key == rest[r].key
    {
      WithoutMembers(rows, key, rest[r]);
      var q :| 0 <= q < |rows| && rows[q] == rest[r];
      var i :| 0 <= i < |groups| && groups[i].key == rows[q].key;
      assert others[i] == groups[i];
    }
  }

  lemma DurationsKept(rows: seq<Digest>, key: Key, other: Key)
    requires other != key
    ensures SomeDuration(Without(rows, key), other) <==> SomeDuration(rows, other)
  {
    var rest := Without(rows, key);
    if i :| 0 <= i < |rest| && rest[i].key == other && rest[i].duration.Some? {
      WithoutMembers(rows, key, rest[i]);
    }
    if i :| 0 <= i < |rows| && rows[i].key == other && rows[i].duration.Some? {
      WithoutMembers(rows, key, rows[i]);
    }
  }

  lemma {:induction false} NoDurationNoSum(rows: seq<Digest>, key: Key)
    requires !SomeDuration(rows, key)
    ensures Duration(rows, WithKey(key)) == 0.0
  {
    if rows != [] {
      var init := rows[..|rows| - 1];
      assert forall i :: 0 <= i < |init| ==> rows[i] == init[i];
      NoDurationNoSum(init, key);
    }
  }

  lemma NoGroupsNoRows(rows: seq<Digest>, groups: seq<Group>)
    requires IsGrouping(rows, groups)
    ensures rows != [] ==> groups != []
  {
    if rows != [] {
      var first := rows[0];
      assert exists i :: 0 <= i < |groups| && groups[i].key == first.key;
    }
  }

  /** For every selection of groups, adding up the grouped results is counting (or summing) the rows. */
  lemma {:induction false} GroupedEqualsDirect(rows: seq<Digest>, groups: seq<Group>, p: Selection)
    requires IsGrouping(rows, groups)
    ensures GroupCount(groups, p) == Count(rows, p)
    ensures GroupDuration(groups, p) == Duration(rows, p)
    decreases |groups|
  {
    if groups == [] {
      NoGroupsNoRows(rows, groups);
    } else {
      var last := groups[|groups| - 1];
      GroupingOfRest(rows, groups);
      GroupedEqualsDirect(Without(rows, last.key), groups[..|groups| - 1], p);
      WithoutShare(rows, last.key, p);
      if !SomeDuration(rows, last.key) { NoDurationNoSum(rows, last.key); }
    }
  }

  lemma {:induction false} StatusesPartition(rows: seq<Digest>)
    ensures Count(rows, Everything()) == |rows|
    ensures |rows| == Count(rows, WithStatus(Pending)) + Count(rows, WithStatus(Processing))
                      + Count(rows, WithStatus(Completed)) + Count(rows, WithStatus(Failed))
  {
    if rows != [] {
      StatusesPartition(rows[..|rows| - 1]);
    }
  }

  ghost function RowNames(d: Dimension, rows: seq<Digest>): (r: set<string>) {
    set i | 0 <= i < |rows| && NameOf(d, rows[i].key).Some? :: NameOf(d, rows[i].key).value
  }

  lemma {:induction false} CountPositive(rows: seq<Digest>, p: Selection)
    ensures Count(rows, p) > 0 <==> exists i :: 0 <= i < |rows| && p(rows[i].key)
  {
    if rows != [] {
      var init := rows[..|rows| - 1];
      CountPositive(init, p);
      if i :| 0 <= i < |init| && p(init[i].key) { assert p(rows[i].key); }
      if i :| 0 <= i < |rows| && p(rows[i].key) {
        if i < |init| { assert p(init[i].key); }
      }
    }
  }

  lemma NamesAreTheRows(d: Dimension, rows: seq<Digest>, groups: seq<Group>)
    requires IsGrouping(rows, groups)
    ensures Names(d, groups) == RowNames(d, rows)
  {
    hide Duration, SomeDuration, NameOf;
    forall v ensures v in Names(d, groups) <==> v in RowNames(d, rows) {
      if v in RowNames(d, rows) {
        var r :| 0 <= r < |rows| && NameOf(d, rows[r].key) == Some(v);
        var i :| 0 <= i < |groups| && groups[i].key == rows[r].key;
      }
      if v in Names(d, groups) {
        var i :| 0 <= i < |groups| && NameOf(d, groups[i].key) == Some(v);
        CountPositive(rows, WithKey(groups[i].key));
      }
    }
  }

  ghost function Selected(rows: seq<Digest>, p: Selection): (r: set<int>) {
    set r | 0 <= r < |rows| && p(rows[r].key)
  }

  /** Counting is counting row numbers. */
  lemma {:induction false} CountIsCardinality(rows: seq<Digest>, p: Selection)
    ensures Count(rows, p) == |Selected(rows, p)|
  {
    if rows != [] {
      var last := |rows| - 1;
      CountIsCardinality(rows[..last], p);
      assert Selected(rows, p) == Selected(rows[..last], p) + if p(rows[last].key) then {last} else {};
    }
  }

  /** Seconds add up over the selected rows, one without a duration counting as none. */
  lemma {:induction false} DurationConcat(a: seq<Digest>, b: seq<Digest>, p: Selection)
    ensures Duration(a + b, p) == Duration(a, p) + Duration(b, p)
    decreases |b|
  {
    if b == [] {
      assert a + b == a;
    } else {
      var init := b[..|b| - 1];
      DurationConcat(a, init, p);
      assert (a + b)[..|a + b| - 1] == a + init && (a + b)[|a + b| - 1] == b[|b| - 1];
    }
  }

  lemma {:induction false} DurationOfOne(d: Digest, p: Selection)
    ensures Duration([d], p) == if p(d.key) && d.duration.Some? then d.duration.value else 0.0
  {
    assert [d][..0] == [];
  }

  /** The two name columns: a table holds the names of its own column, empty ones left out. */
  lemma NamesOnRows(rows: seq<Digest>, v: string)
    ensures v in RowNames(Voice, rows) <==> v != "" && exists r :: 0 <= r < |rows| && rows[r].key.voice == Some(v)
    ensures v in RowNames(Provider, rows) <==> v != "" && exists r :: 0 <= r < |rows| && rows[r].key.provider == Some(v)
    ensures v != "" ==> Selected(rows, WithName(Voice, v)) == set r | 0 <= r < |rows| && rows[r].key.voice == Some(v)
    ensures v != "" ==> Selected(rows, WithName(Provider, v)) == set r | 0 <= r < |rows| && rows[r].key.provider == Some(v)
  {
  }

  /** The figures of the rows, in terms of row numbers and columns alone. */
  ghost predicate Figures(s: Statistics, rows: seq<Digest>) {
    && s.total == |rows|
    && s.generating == |set r | 0 <= r < |rows| && (rows[r].key.status == Pending || rows[r].key.status == Processing)|
    && s.completed == |set r | 0 <= r < |rows| && rows[r].key.status == Completed|
    && s.failed == |set r | 0 <= r < |rows| && rows[r].key.status == Failed|
    && (forall v :: v in s.byVoice <==> v != "" && exists r :: 0 <= r < |rows| && rows[r].key.voice == Some(v))
    && (forall v :: v in s.byVoice ==> s.byVoice[v] == |set r | 0 <= r < |rows| && rows[r].key.voice == Some(v)|)
    && (forall v :: v in s.byProvider <==> v != "" && exists r :: 0 <= r < |rows| && rows[r].key.provider == Some(v))
    && (forall v :: v in s.byProvider ==> s.byProvider[v] == |set r | 0 <= r < |rows| && rows[r].key.provider == Some(v)|)
  }

  lemma {:induction false} DirectFigures(s: Statistics, rows: seq<Digest>)
    requires s.total == |rows| && s.total == s.generating + s.completed + s.failed
    requires s.completed == Count(rows, WithStatus(Completed)) && s.failed == Count(rows, WithStatus(Failed))
    requires s.byVoice.Keys == RowNames(Voice, rows)
    requires forall v :: v in s.byVoice ==> s.byVoice[v] == Count(rows, WithName(Voice, v))
    requires s.byProvider.Keys == RowNames(Provider, rows)
    requires forall v :: v in s.byProvider ==> s.byProvider[v] == Count(rows, WithName(Provider, v))
    ensures Figures(s, rows)
  {
    StatusFigures(rows);
    hide Count, RowNames, WithName, Selected;
    forall v ensures v in s.byVoice <==> v in RowNames(Voice, rows)
      ensures v in s.byProvider <==> v in RowNames(Provider, rows)
    {
      assert v in s.byVoice <==> v in s.byVoice.Keys;
    }
    forall v: string
      ensures v in RowNames(Voice, rows) <==> v != "" && exists r :: 0 <= r < |rows| && rows[r].key.voice == Some(v)
      ensures v in RowNames(Provider, rows) <==> v != "" && exists r :: 0 <= r < |rows| && rows[r].key.provider == Some(v)
      ensures v != "" ==> Count(rows, WithName(Voice, v)) == |set r | 0 <= r < |rows| && rows[r].key.voice == Some(v)|
      ensures v != "" ==> Count(rows, WithName(Provider, v)) == |set r | 0 <= r < |rows| && rows[r].key.provider == Some(v)|
    {
      NamesOnRows(rows, v);
      CountIsCardinality(rows, WithName(Voice, v));
      CountIsCardinality(rows, WithName(Provider, v));
    }
  }

  lemma {:induction false} StatusFigures(rows: seq<Digest>)
    ensures Count(rows, WithStatus(Completed)) == |set r | 0 <= r < |rows| && rows[r].key.status == Completed|
    ensures Count(rows, WithStatus(Failed)) == |set r | 0 <= r < |rows| && rows[r].key.status == Failed|
    ensures |rows| - Count(rows, WithStatus(Completed)) - Count(rows, WithStatus(Failed))
         == |set r | 0 <= r < |rows| && (rows[r].key.status == Pending || rows[r].key.status == Processing)|
  {
    StatusesPartition(rows);
    CountIsCardinality(rows, WithStatus(Completed));
    CountIsCardinality(rows, WithStatus(Failed));
    CountIsCardinality(rows, WithStatus(Pending));
    CountIsCardinality(rows, WithStatus(Processing));
    var pending, processing := Selected(rows, WithStatus(Pending)), Selected(rows, WithStatus(Processing));
    assert Selected(rows, WithStatus(Completed)) == set r | 0 <= r < |rows| && rows[r].key.status == Completed;
    assert Selected(rows, WithStatus(Failed)) == set r | 0 <= r < |rows| && rows[r].key.status == Failed;
    assert pending + processing
        == set r | 0 <= r < |rows| && (rows[r].key.status == Pending || rows[r].key.status == Processing);
    assert pending !! processing;
  }

  /** get_audio_digest_statistics: whatever order the groups come in, every figure is the one a
      direct query over the rows would give, and the statuses add up to the total. */
  method GetStatistics(ghost rows: seq<Digest>, groups: seq<Group>) returns (s: Statistics)
    requires IsGrouping(rows, groups)
    ensures s.total == |rows| && s.total == s.generating + s.completed + s.failed
    ensures s.completed == Count(rows, WithStatus(Completed)) && s.failed == Count(rows, WithStatus(Failed))
    ensures s.totalDuration == Duration(rows, WithStatus(Completed))
    ensures s.byVoice.Keys == RowNames(Voice, rows)
    ensures forall v :: v in s.byVoice ==> s.byVoice[v] == Count(rows, WithName(Voice, v))
    ensures s.byProvider.Keys == RowNames(Provider, rows)
    ensures forall v :: v in s.byProvider ==> s.byProvider[v] == Count(rows, WithName(Provider, v))
    ensures Figures(s, rows)
  {
    hide Figures;
    s := Fold(groups);
    forall p: Selection {
      GroupedEqualsDirect(rows, groups, p);
    }
    StatusesPartition(rows);
    NamesAreTheRows(Voice, rows, groups);
    NamesAreTheRows(Provider, rows, groups);
    DirectFigures(s, rows);
  }
}
