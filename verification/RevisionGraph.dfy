/** The migration-head check: a revision is a head when no other revision names it as its parent. */
module RevisionGraph {
  import opened SqlLogic

  /** What was parsed from one migration file: its revision, if any, and its down revisions. */
  datatype File = File(revision: Option<string>, downRevisions: seq<string>)

  type Graph = map<string, seq<string>>

  /** Later files win, as in a dict; a missing or empty revision is skipped. */
  function GraphOf(files: seq<File>): (g: Graph) {
    if files == [] then map[]
    else
      var g := GraphOf(files[..|files| - 1]);
      var f := files[|files| - 1];
      if f.revision.Some? && f.revision.value != "" then g[f.revision.value := f.downRevisions] else g
  }

  /** File i is the last one that states the revision. */
  ghost predicate States(files: seq<File>, i: int, rev: string) {
    && 0 <= i < |files| && rev != "" && files[i].revision == Some(rev)
    && forall j :: i < j < |files| ==> files[j].revision != Some(rev)
  }

  /** What the files come to: a revision is in the graph when some file states it, with all the down
      revisions of the last file that does, a merge's second parent included. */
  lemma {:induction false} GraphMeaning(files: seq<File>, rev: string)
    ensures rev in GraphOf(files) <==> exists i :: States(files, i, rev)
    ensures forall i :: States(files, i, rev) ==> rev in GraphOf(files) && GraphOf(files)[rev] == files[i].downRevisions
  {
    if files != [] {
      var init, last := files[..|files| - 1], |files| - 1;
      GraphMeaning(init, rev);
      if files[last].revision == Some(rev) {
        assert rev != "" ==> States(files, last, rev);
      } else {
        forall i ensures States(init, i, rev) <==> States(files, i, rev) {
          if States(init, i, rev) { assert files[i] == init[i]; }
          if States(files, i, rev) { assert files[i] == init[i]; }
        }
      }
    }
  }

  ghost predicate PointedAt(g: Graph, rev: string) {
    exists r :: r in g && rev in g[r]
  }

  ghost predicate IsHead(g: Graph, rev: string) {
    rev in g && !PointedAt(g, rev)
  }

  ghost function Heads(g: Graph): (r: set<string>) {
    set rev | rev in g && !PointedAt(g, rev)
  }

  /** The keys of the dict in insertion order: a revision stated again keeps its place. */
  function Order(files: seq<File>): (r: seq<string>) {
    if files == [] then []
    else
      var r := Order(files[..|files| - 1]);
      var f := files[|files| - 1];
      if f.revision.Some? && f.revision.value != "" && f.revision.value !in r then r + [f.revision.value] else r
  }

  predicate Distinct(xs: seq<string>) {
    forall i, j :: 0 <= i < j < |xs| ==> xs[i] != xs[j]
  }

  lemma {:induction false} OrderListsRevisions(files: seq<File>)
    ensures Distinct(Order(files)) && forall x :: x in Order(files) <==> x in GraphOf(files)
  {
    if files != [] {
      OrderListsRevisions(files[..|files| - 1]);
    }
  }

  function Without(xs: seq<string>, drop: set<string>): (r: seq<string>) {
    if xs == [] then []
    else Without(xs[..|xs| - 1], drop) + if xs[|xs| - 1] in drop then [] else [xs[|xs| - 1]]
  }

  lemma {:induction false} WithoutMeaning(xs: seq<string>, drop: set<string>)
    requires Distinct(xs)
    ensures Distinct(Without(xs, drop)) && forall x :: x in Without(xs, drop) <==> x in xs && x !in drop
  {
    if xs != [] {
      WithoutMeaning(xs[..|xs| - 1], drop);
      assert xs == xs[..|xs| - 1] + [xs[|xs| - 1]];
    }
  }

  /** The revisions some revision names as its parent. */
  ghost function AllDown(g: Graph): (r: set<string>) {
    set r, d | r in g && d in g[r] :: d
  }

  lemma AllDownIsPointedAt(g: Graph)
    ensures forall rev :: rev in AllDown(g) <==> PointedAt(g, rev)
  {
  }

  /** A head is a revision that no revision's last file names among its parents. */
  lemma {:induction false} HeadOnFiles(files: seq<File>, rev: string)
    ensures rev in Heads(GraphOf(files)) <==>
              && (exists i :: States(files, i, rev))
              && forall i, child :: States(files, i, child) ==> rev !in files[i].downRevisions
  {
    assert forall i, child :: States(files, i, child) ==> 0 <= i < |files|;
    hide GraphOf, States;
    forall child
      ensures child in GraphOf(files) <==> exists i :: States(files, i, child)
      ensures forall i :: States(files, i, child) ==> child in GraphOf(files) && GraphOf(files)[child] == files[i].downRevisions
    {
      GraphMeaning(files, child);
    }
    if rev in Heads(GraphOf(files)) {
      forall i, child | States(files, i, child) ensures rev !in files[i].downRevisions {
        assert child in GraphOf(files);
      }
    }
    if rev in GraphOf(files) && PointedAt(GraphOf(files), rev) {
      var child :| child in GraphOf(files) && rev in GraphOf(files)[child];
      var i :| States(files, i, child);
      assert rev in files[i].downRevisions;
    }
  }

  lemma NothingRead()
    ensures GraphOf([]) == map[] && Order([]) == [] && forall drop: set<string> :: Without([], drop) == []
  {
  }

  lemma OneMoreFile(files: seq<File>, i: nat)
    requires i < |files|
    ensures var f := files[i];
            var stated := f.revision.Some? && f.revision.value != "";
            && GraphOf(files[..i + 1]) == (if stated then GraphOf(files[..i])[f.revision.value := f.downRevisions] else GraphOf(files[..i]))
            && Order(files[..i + 1]) == Order(files[..i]) + if stated && f.revision.value !in Order(files[..i]) then [f.revision.value] else []
  {
    assert files[..i + 1][..i] == files[..i];
  }

  lemma OneMoreKey(keys: seq<string>, drop: set<string>, i: nat)
    requires i < |keys|
    ensures Without(keys[..i + 1], drop) == Without(keys[..i], drop) + if keys[i] in drop then [] else [keys[i]]
  {
    assert keys[..i + 1][..i] == keys[..i];
  }

  /** find_heads: the heads, each once, in the order in which their revisions were first stated. */
  method FindHeads(files: seq<File>) returns (heads: seq<string>)
    ensures forall rev :: rev in heads <==> rev in Heads(GraphOf(files))
    ensures Distinct(heads) && heads == Without(Order(files), AllDown(GraphOf(files)))
  {
    hide AllDown, PointedAt, Distinct, GraphOf, Order, Without;
    NothingRead();
    var revisions: Graph := map[];
    var keys: seq<string> := [];
    var i := 0;
    while i < |files|
      invariant 0 <= i <= |files| && revisions == GraphOf(files[..i]) && keys == Order(files[..i])
    {
      OneMoreFile(files, i);
      if files[i].revision.Some? && files[i].revision.value != "" {
        revisions := revisions[files[i].revision.value := files[i].downRevisions];
        if files[i].revision.value !in keys { keys := keys + [files[i].revision.value]; }
      }
      i := i + 1;
    }
    assert files[..i] == files;
    OrderListsRevisions(files);
    var allDown: set<string> := {};
    i := 0;
    while i < |keys|
      invariant 0 <= i <= |keys|
      invariant allDown == set j, d | 0 <= j < i && d in revisions[keys[j]] :: d
    {
      allDown := allDown + set d | d in revisions[keys[i]];
      i := i + 1;
    }
    assert allDown == AllDown(revisions) by { EveryKeyVisited(revisions, keys); }
    heads := [];
    i := 0;
    while i < |keys|
      invariant 0 <= i <= |keys| && heads == Without(keys[..i], allDown)
    {
      OneMoreKey(keys, allDown, i);
      if keys[i] !in allDown { heads := heads + [keys[i]]; }
      i := i + 1;
    }
    assert keys[..i] == keys;
    WithoutMeaning(keys, allDown);
    AllDownIsPointedAt(revisions);
  }

  lemma EveryKeyVisited(g: Graph, keys: seq<string>)
    requires forall x :: x in keys <==> x in g
    ensures (set j, d | 0 <= j < |keys| && d in g[keys[j]] :: d) == AllDown(g)
  {
    forall r, d | r in g && d in g[r]
      ensures d in set j, d | 0 <= j < |keys| && d in g[keys[j]] :: d
    {
      var j :| 0 <= j < |keys| && keys[j] == r;
    }
  }

  lemma TwoDistinct(xs: seq<string>)
    requires Distinct(xs)
    ensures |xs| > 1 ==> exists a, b :: a in xs && b in xs && a != b
  {
    if |xs| > 1 {
      assert xs[0] in xs && xs[1] in xs && xs[0] != xs[1];
    }
  }

  /** main: the check passes exactly when the graph has one head. */
  method CheckSingleHead(files: seq<File>) returns (ok: bool, head: string)
    ensures ok ==> Heads(GraphOf(files)) == {head}
    ensures (exists h :: Heads(GraphOf(files)) == {h}) ==> ok
  {
    var heads := FindHeads(files);
    ok := |heads| == 1;
    head := if ok then heads[0] else "";
    TwoDistinct(heads);
    if h :| Heads(GraphOf(files)) == {h} {
      assert h in heads;
    }
  }

  // -----------------------------------------------------------------------------------------
  // Paths

  /** A path through down-revisions, newest first; every node but perhaps the last is a revision. */
  ghost predicate IsPath(g: Graph, p: seq<string>) {
    p != [] && forall i :: 0 <= i < |p| - 1 ==> p[i] in g && p[i + 1] in g[p[i]]
  }

  ghost predicate Reaches(g: Graph, a: string, b: string) {
    exists p :: IsPath(g, p) && p[0] == a && p[|p| - 1] == b
  }

  ghost predicate Acyclic(g: Graph) {
    forall p :: IsPath(g, p) && |p| > 1 ==> p[0] != p[|p| - 1]
  }

  ghost predicate OnCycle(g: Graph, rev: string) {
    exists p :: IsPath(g, p) && |p| > 1 && p[0] == rev == p[|p| - 1]
  }

  ghost predicate Precedes(rank: map<string, nat>, down: string, rev: string) {
    rev in rank && down in rank && rank[down] < rank[rev]
  }

  /** A history in which every revision's parents come before it has no cycle. */
  lemma {:induction false} OrderedIsAcyclic(g: Graph, rank: map<string, nat>)
    requires forall rev, down :: rev in g && down in g[rev] ==> Precedes(rank, down, rev)
    ensures Acyclic(g)
  {
    forall p | IsPath(g, p) && |p| > 1 ensures p[0] != p[|p| - 1] {
      RankFalls(g, rank, p);
    }
  }

  lemma {:induction false} RankFalls(g: Graph, rank: map<string, nat>, p: seq<string>)
    requires forall rev, down :: rev in g && down in g[rev] ==> Precedes(rank, down, rev)
    requires IsPath(g, p) && |p| > 1
    ensures Precedes(rank, p[|p| - 1], p[0])
    decreases |p|
  {
    var init, last := p[..|p| - 1], |p| - 2;
    assert p[last] in g && p[last + 1] in g[p[last]];
    if |p| > 2 {
      assert IsPath(g, init) by {
        forall i | 0 <= i < |init| - 1 ensures init[i] in g && init[i + 1] in g[init[i]] {
          assert p[i] in g && p[i + 1] in g[p[i]];
        }
      }
      RankFalls(g, rank, init);
    }
  }

  lemma DistinctWithin(p: seq<string>, s: set<string>)
    requires forall i, j :: 0 <= i < j < |p| ==> p[i] != p[j]
    requires forall i :: 0 <= i < |p| ==> p[i] in s
    ensures |p| <= |s|
    decreases |p|
  {
    if p != [] {
      var init := p[..|p| - 1];
      DistinctWithin(init, s - {p[|p| - 1]});
    }
  }

  lemma Segment(g: Graph, p: seq<string>, i: nat, j: nat)
    requires IsPath(g, p) && i < j < |p|
    ensures IsPath(g, p[i..j + 1]) && Reaches(g, p[i], p[j])
    ensures p[i] == p[j] ==> OnCycle(g, p[i])
  {
    assert IsPath(g, p[i..j + 1]);
  }

  lemma AcyclicMeans(g: Graph, rev: string)
    requires Acyclic(g)
    ensures !OnCycle(g, rev)
  {
  }

  lemma ReachesThrough(g: Graph, a: string, b: string, c: string)
    requires Reaches(g, a, b) && Reaches(g, b, c)
    ensures Reaches(g, a, c)
  {
    var p :| IsPath(g, p) && p[0] == a && p[|p| - 1] == b;
    var q :| IsPath(g, q) && q[0] == b && q[|q| - 1] == c;
    var r := p + q[1..];
    assert IsPath(g, r) by {
      forall i | 0 <= i < |r| - 1 ensures r[i] in g && r[i + 1] in g[r[i]] {
        if i >= |p| - 1 {
          assert r[i] == q[i - (|p| - 1)] && r[i + 1] == q[i - (|p| - 1) + 1];
        }
      }
    }
    assert r[|r| - 1] == c;
  }

  lemma LongerPath(g: Graph, r: string, p: seq<string>)
    requires IsPath(g, p) && r in g && p[0] in g[r]
    ensures IsPath(g, [r] + p)
  {
    var longer := [r] + p;
    forall i | 0 <= i < |longer| - 1 ensures longer[i] in g && longer[i + 1] in g[longer[i]] {
      if i > 0 { assert longer[i] == p[i - 1] && longer[i + 1] == p[i]; }
    }
  }

  /** Climbing from any revision along the files that point at it ends at a head or enters a cycle:
      an unbounded climb would repeat a revision. */
  lemma {:induction false} ClimbToSource(g: Graph, p: seq<string>) returns (top: string)
    requires IsPath(g, p) && Distinct(p) && p[|p| - 1] in g
    ensures top in g && Reaches(g, top, p[|p| - 1]) && (IsHead(g, top) || OnCycle(g, top))
    decreases |g| + 1 - |p|
  {
    var last := |p| - 1;
    assert p[0] in g;
    if !PointedAt(g, p[0]) {
      top := p[0];
      assert Reaches(g, top, p[last]);
    } else {
      var r :| r in g && p[0] in g[r];
      var longer := [r] + p;
      LongerPath(g, r, p);
      if r in p {
        var j :| 0 <= j < |p| && p[j] == r;
        assert longer[j + 1] == longer[0] == r;
        Segment(g, longer, 0, j + 1);
        Segment(g, longer, 0, |longer| - 1);
        top := r;
      } else {
        assert Distinct(longer);
        assert forall i :: 0 <= i < |longer| ==> longer[i] in g.Keys by { PathInGraph(g, longer); }
        DistinctWithin(longer, g.Keys);
        top := ClimbToSource(g, longer);
        assert longer[|longer| - 1] == p[last];
      }
    }
  }

  lemma PathInGraph(g: Graph, p: seq<string>)
    requires IsPath(g, p) && p[|p| - 1] in g
    ensures forall i :: 0 <= i < |p| ==> p[i] in g.Keys
  {
  }

  /** Every revision of any graph is reached from a head or from a revision on a cycle. */
  lemma SourceReaches(g: Graph, rev: string) returns (top: string)
    requires rev in g
    ensures top in g && Reaches(g, top, rev) && (IsHead(g, top) || OnCycle(g, top))
  {
    top := ClimbToSource(g, [rev]);
  }

  /** What a passing check is worth: with exactly one head, that head's history is complete if and
      only if it takes in every revision that lies on a cycle. */
  lemma {:induction false} SingleHeadCompleteExactly(g: Graph, h: string)
    requires Heads(g) == {h}
    ensures (forall rev :: rev in g ==> Reaches(g, h, rev))
       <==> (forall rev :: rev in g && OnCycle(g, rev) ==> Reaches(g, h, rev))
  {
    hide Reaches, OnCycle;
    if forall rev :: rev in g && OnCycle(g, rev) ==> Reaches(g, h, rev) {
      forall rev | rev in g
        ensures Reaches(g, h, rev)
      {
        var top := SourceReaches(g, rev);
        if IsHead(g, top) {
          assert top in Heads(g);
        } else {
          ReachesThrough(g, h, top, rev);
        }
      }
    }
  }

  lemma SomeHeadReaches(g: Graph, rev: string) returns (h: string)
    requires Acyclic(g) && rev in g
    ensures h in Heads(g) && Reaches(g, h, rev)
  {
    hide Acyclic, Reaches, OnCycle;
    h := SourceReaches(g, rev);
    AcyclicMeans(g, h);
  }

  /** Every revision of an acyclic graph is reached from some head; so a graph with revisions has
      a head, and with exactly one head that head's history is complete. */
  lemma HeadsReachEverything(g: Graph)
    requires Acyclic(g)
    ensures forall rev :: rev in g ==> exists h :: h in Heads(g) && Reaches(g, h, rev)
    ensures g != map[] ==> Heads(g) != {}
    ensures forall h :: Heads(g) == {h} ==> forall rev :: rev in g ==> Reaches(g, h, rev)
  {
    hide Acyclic, Heads, Reaches;
    forall rev | rev in g
      ensures exists h :: h in Heads(g) && Reaches(g, h, rev)
    {
      var h := SomeHeadReaches(g, rev);
    }
    if g != map[] {
      var rev :| rev in g;
      var h := SomeHeadReaches(g, rev);
    }
    forall h, rev | Heads(g) == {h} && rev in g
      ensures Reaches(g, h, rev)
    {
      var head := SomeHeadReaches(g, rev);
      assert head == h;
    }
  }

  /** A cycle has no head, so the check fails on it. */
  lemma CycleHasNoHead(a: string, b: string)
    requires a != b
    ensures Heads(map[a := [b], b := [a]]) == {} && !Acyclic(map[a := [b], b := [a]])
  {
    var g := map[a := [b], b := [a]];
    assert PointedAt(g, a) && PointedAt(g, b) by {
      assert a in g[b] && b in g[a];
    }
    assert IsPath(g, [a, b, a]);
  }

  lemma FirstStep(g: Graph, p: seq<string>)
    requires IsPath(g, p)
    ensures |p| > 1 ==> p[0] in g && p[1] in g[p[0]]
  {
    if |p| > 1 { assert p[0 + 1] in g[p[0]]; }
  }

  /** A cycle beside a complete history does not add a head: the check passes, and the cycle's
      revisions are not in the history it reports. */
  lemma {:induction false} DetachedCyclePasses(h: string, a: string, b: string)
    requires a != b && h != a && h != b
    ensures var g := map[h := [], a := [b], b := [a]];
            Heads(g) == {h} && OnCycle(g, a) && !Reaches(g, h, a)
  {
    var g := map[h := [], a := [b], b := [a]];
    assert PointedAt(g, a) && PointedAt(g, b) by {
      assert a in g[b] && b in g[a];
    }
    assert IsPath(g, [a, b, a]);
    forall p | IsPath(g, p) && p[0] == h
      ensures p[|p| - 1] != a
    {
      FirstStep(g, p);
    }
  }

  /** Merging all heads leaves the merge revision as the only head, and keeps the graph acyclic. */
  lemma MergeLeavesOneHead(g: Graph, merge: string, parents: seq<string>)
    requires Acyclic(g) && merge !in g && !PointedAt(g, merge)
    requires forall rev :: rev in parents <==> rev in Heads(g)
    ensures Heads(g[merge := parents]) == {merge} && Acyclic(g[merge := parents])
  {
    var h := g[merge := parents];
    forall r | r in h ensures merge !in h[r] {
      if r in g { assert merge in g[r] ==> PointedAt(g, merge); }
    }
    forall rev ensures rev in Heads(h) <==> rev == merge {
      if rev in g {
        if rev in Heads(g) {
          assert rev in h[merge];
        } else {
          var r :| r in g && rev in g[r];
          assert r in h && rev in h[r];
        }
      }
    }
    forall p | IsPath(h, p) && |p| > 1 ensures p[0] != p[|p| - 1] {
      PathLeavesMerge(g, h, merge, p);
    }
  }

  /** Nothing points at the merge, so a path is at it only in its first place. */
  lemma PathLeavesMerge(g: Graph, h: Graph, merge: string, p: seq<string>)
    requires Acyclic(g) && g == h - {merge} && forall r :: r in h ==> merge !in h[r]
    requires IsPath(h, p) && |p| > 1
    ensures p[0] != p[|p| - 1]
  {
    forall i | 0 < i < |p| ensures p[i] != merge {
      assert p[i - 1] in h && p[i - 1 + 1] in h[p[i - 1]];
    }
    if p[0] != merge {
      assert IsPath(g, p);
    }
  }
}
