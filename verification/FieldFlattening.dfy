/** The fields of a component assembled with allOf: flattened by `resolve` for the command tables,
    and spread over a chain of generated classes by `_object_parts`. */
module FieldFlattening {
  import opened SqlLogic
  import opened JsonValues

  /** Property names and the schema attached to each. */
  type Fields = map<string, Json>

  datatype Part =
    | Ref(name: string)
    | Inline(properties: Fields, required: seq<string>)

  datatype Component = Component(
    ref: Option<string>,
    properties: Fields,
    required: seq<string>,
    allOf: Option<seq<Part>>)

  type Components = map<string, Component>

  /** schema.get("allOf", [schema]) */
  function PartsOf(c: Component): (parts: seq<Part>) {
    if c.allOf.Some? then c.allOf.value
    else if c.ref.Some? then [Ref(c.ref.value)]
    else [Inline(c.properties, c.required)]
  }

  /** References exist and strictly descend in `rank`: the allOf graph has no cycle. */
  ghost predicate Acyclic(env: Components, rank: map<string, nat>) {
    && rank.Keys == env.Keys
    && forall n :: n in env ==> Below(env, rank, PartsOf(env[n]), rank[n])
  }

  ghost predicate Below(env: Components, rank: map<string, nat>, parts: seq<Part>, bound: nat)
    requires rank.Keys == env.Keys
  {
    forall i :: 0 <= i < |parts| && parts[i].Ref? ==> parts[i].name in env && rank[parts[i].name] < bound
  }

  lemma UpdateAssociates(a: Fields, b: Fields, c: Fields)
    ensures (a + b) + c == a + (b + c)
  {
  }

  // -----------------------------------------------------------------------------------------
  // Flattening

  /** Appending the names not yet listed, one at a time. */
  function Extend(required: seq<string>, names: seq<string>): (r: seq<string>)
    decreases |names|
  {
    if names == [] then required
    else
      var r := Extend(required, names[..|names| - 1]);
      var name := names[|names| - 1];
      if name in r then r else r + [name]
  }

  lemma {:induction false} ExtendListsOnce(required: seq<string>, names: seq<string>)
    requires forall i, j :: 0 <= i < j < |required| ==> required[i] != required[j]
    ensures forall i, j :: 0 <= i < j < |Extend(required, names)| ==> Extend(required, names)[i] != Extend(required, names)[j]
    ensures required <= Extend(required, names)
    ensures forall x :: x in Extend(required, names) <==> x in required || x in names
    decreases |names|
  {
    if names != [] {
      ExtendListsOnce(required, names[..|names| - 1]);
      assert names == names[..|names| - 1] + [names[|names| - 1]];
    }
  }

  ghost predicate PartRequires(env: Components, rank: map<string, nat>, part: Part, x: string)
    requires Acyclic(env, rank) && (part.Ref? ==> part.name in env)
  {
    if part.Ref? then x in Flattened(env, rank, part.name).1 else x in part.required
  }

  /** `resolve` lists every required name once: exactly those its references and parts require. */
  lemma {:induction false} RequiredListedOnce(env: Components, rank: map<string, nat>, parts: seq<Part>, bound: nat)
    requires Acyclic(env, rank) && Below(env, rank, parts, bound)
    ensures forall i, j :: 0 <= i < j < |FlattenedParts(env, rank, parts, bound).1| ==>
              FlattenedParts(env, rank, parts, bound).1[i] != FlattenedParts(env, rank, parts, bound).1[j]
    ensures forall x :: x in FlattenedParts(env, rank, parts, bound).1 <==>
              exists i :: 0 <= i < |parts| && PartRequires(env, rank, parts[i], x)
    decreases |parts|
  {
    hide Acyclic, Extend, Flattened;
    if parts != [] {
      var init, last := parts[..|parts| - 1], parts[|parts| - 1];
      RequiredListedOnce(env, rank, init, bound);
      var before := FlattenedParts(env, rank, init, bound).1;
      var more := if last.Ref? then Flattened(env, rank, last.name).1 else last.required;
      ExtendListsOnce(before, more);
      assert FlattenedParts(env, rank, parts, bound).1 == Extend(before, more);
      forall x
        ensures x in before || x in more <==> exists i :: 0 <= i < |parts| && PartRequires(env, rank, parts[i], x)
      {
        if x in before {
          var i :| 0 <= i < |init| && PartRequires(env, rank, init[i], x);
          assert parts[i] == init[i];
        }
        if x in more { assert PartRequires(env, rank, parts[|init|], x); }
        if i :| 0 <= i < |parts| && PartRequires(env, rank, parts[i], x) {
          if i < |init| { assert init[i] == parts[i]; }
        }
      }
    }
  }

  ghost function Flattened(env: Components, rank: map<string, nat>, name: string): (r: (Fields, seq<string>))
    requires Acyclic(env, rank) && name in env
    decreases rank[name], 1, 0
  {
    FlattenedParts(env, rank, PartsOf(env[name]), rank[name])
  }

  ghost function FlattenedParts(env: Components, rank: map<string, nat>, parts: seq<Part>, bound: nat)
    : (r: (Fields, seq<string>))
    requires Acyclic(env, rank) && Below(env, rank, parts, bound)
    decreases bound, 0, |parts|
  {
    if parts == [] then (map[], [])
    else
      var before := FlattenedParts(env, rank, parts[..|parts| - 1], bound);
      var last := parts[|parts| - 1];
      var (properties, required) :=
        if last.Ref? then Flattened(env, rank, last.name) else (last.properties, last.required);
      (before.0 + properties, Extend(before.1, required))
  }

  lemma OnePartFlattened(env: Components, rank: map<string, nat>, parts: seq<Part>, i: nat, bound: nat)
    requires Acyclic(env, rank) && Below(env, rank, parts, bound) && i <= |parts|
    ensures i == 0 ==> FlattenedParts(env, rank, parts[..i], bound) == (map[], [])
    ensures i < |parts| ==>
              var before := FlattenedParts(env, rank, parts[..i], bound);
              var (properties, required) := if parts[i].Ref? then Flattened(env, rank, parts[i].name)
                                            else (parts[i].properties, parts[i].required);
              FlattenedParts(env, rank, parts[..i + 1], bound) == (before.0 + properties, Extend(before.1, required))
  {
    hide Extend, Flattened;
    if i < |parts| { assert parts[..i + 1][..i] == parts[..i]; }
  }

  lemma OneNameMore(required: seq<string>, names: seq<string>, j: nat)
    requires j <= |names|
    ensures j == 0 ==> Extend(required, names[..j]) == required
    ensures j < |names| ==>
              Extend(required, names[..j + 1])
              == Extend(required, names[..j]) + if names[j] in Extend(required, names[..j]) then [] else [names[j]]
  {
    if j < |names| { assert names[..j + 1][..j] == names[..j]; }
  }

  lemma FlattenedByParts(env: Components, rank: map<string, nat>, name: string)
    requires Acyclic(env, rank) && name in env
    ensures Below(env, rank, PartsOf(env[name]), rank[name])
    ensures Flattened(env, rank, name) == FlattenedParts(env, rank, PartsOf(env[name]), rank[name])
  {
  }

  /** The recursive `resolve` of _command_field_schemas. */
  method Resolve(env: Components, ghost rank: map<string, nat>, schema: Component, ghost bound: nat)
    returns (properties: Fields, required: seq<string>)
    requires Acyclic(env, rank) && Below(env, rank, PartsOf(schema), bound)
    ensures (properties, required) == FlattenedParts(env, rank, PartsOf(schema), bound)
    decreases bound
  {
    hide FlattenedParts, Flattened, Extend, PartsOf;
    properties, required := map[], [];
    var parts := PartsOf(schema);
    var i := 0;
    OnePartFlattened(env, rank, parts, 0, bound);
    while i < |parts|
      invariant 0 <= i <= |parts|
      invariant (properties, required) == FlattenedParts(env, rank, parts[..i], bound)
    {
      OnePartFlattened(env, rank, parts, i, bound);
      var partProperties, partRequired;
      if parts[i].Ref? {
        FlattenedByParts(env, rank, parts[i].name);
        partProperties, partRequired := Resolve(env, rank, env[parts[i].name], rank[parts[i].name]);
      } else {
        partProperties, partRequired := parts[i].properties, parts[i].required;
      }
      ghost var before := required;
      properties := properties + partProperties;
      var j := 0;
      OneNameMore(before, partRequired, 0);
      while j < |partRequired|
        invariant 0 <= j <= |partRequired| && required == Extend(before, partRequired[..j])
      {
        OneNameMore(before, partRequired, j);
        if partRequired[j] !in required {
          required := required + [partRequired[j]];
        }
        j := j + 1;
      }
      assert partRequired[..j] == partRequired;
      i := i + 1;
    }
    assert parts[..i] == parts;
  }

  // -----------------------------------------------------------------------------------------
  // Class generation

  function InlineProperties(parts: seq<Part>): (r: Fields)
    decreases |parts|
  {
    if parts == [] then map[]
    else
      var last := parts[|parts| - 1];
      InlineProperties(parts[..|parts| - 1]) + (if last.Inline? then last.properties else map[])
  }

  function InlineRequired(parts: seq<Part>): (r: set<string>)
    decreases |parts|
  {
    if parts == [] then {}
    else
      var last := parts[|parts| - 1];
      InlineRequired(parts[..|parts| - 1]) + (if last.Inline? then set n | n in last.required else {})
  }

  function FirstRef(parts: seq<Part>): (r: Option<string>) {
    if parts == [] then None
    else if parts[0].Ref? then Some(parts[0].name)
    else FirstRef(parts[1..])
  }

  function AllOf(c: Component): (parts: seq<Part>) {
    if c.allOf.Some? then c.allOf.value else []
  }

  function Refs(parts: seq<Part>): (r: seq<string>)
    decreases |parts|
  {
    if parts == [] then []
    else
      var last := parts[|parts| - 1];
      Refs(parts[..|parts| - 1]) + (if last.Ref? then [last.name] else [])
  }

  lemma {:induction false} RefsAppend(parts: seq<Part>, more: seq<Part>)
    ensures Refs(parts + more) == Refs(parts) + Refs(more)
    decreases |more|
  {
    if more == [] {
      assert parts + more == parts;
    } else {
      RefsAppend(parts, more[..|more| - 1]);
      assert (parts + more)[..|parts + more| - 1] == parts + more[..|more| - 1];
    }
  }

  lemma {:induction false} FirstRefIsHead(parts: seq<Part>)
    ensures FirstRef(parts) == if Refs(parts) == [] then None else Some(Refs(parts)[0])
    decreases |parts|
  {
    if parts != [] {
      FirstRefIsHead(parts[1..]);
      RefsAppend([parts[0]], parts[1..]);
      assert [parts[0]] + parts[1..] == parts;
      assert Refs([parts[0]]) == if parts[0].Ref? then [parts[0].name] else [] by {
        assert [parts[0]][..0] == [];
      }
    }
  }

  lemma NoPartYet(c: Component)
    ensures Refs([]) == [] && InlineRequired([]) == {} && c.properties + InlineProperties([]) == c.properties
  {
  }

  /** What one more part adds to the bases, the own fields and the required names of a class. */
  lemma OnePartMore(c: Component, parts: seq<Part>, part: Part)
    ensures Refs(parts + [part]) == Refs(parts) + (if part.Ref? then [part.name] else [])
    ensures c.properties + InlineProperties(parts + [part])
         == c.properties + InlineProperties(parts) + (if part.Inline? then part.properties else map[])
    ensures InlineRequired(parts + [part]) == InlineRequired(parts) + (if part.Inline? then set n | n in part.required else {})
  {
    assert (parts + [part])[..|parts|] == parts;
    UpdateAssociates(c.properties, InlineProperties(parts), if part.Inline? then part.properties else map[]);
  }

  /** _object_parts: the base class (None stands for the three fixed bases), own fields, required. */
  method ObjectParts(schema: Component)
    returns (base: Option<string>, properties: Fields, required: set<string>)
    ensures base == FirstRef(AllOf(schema))
    ensures properties == schema.properties + InlineProperties(AllOf(schema))
    ensures required == (set n | n in schema.required) + InlineRequired(AllOf(schema))
  {
    hide Refs, InlineProperties, InlineRequired, FirstRef;
    var bases: seq<string> := [];
    properties := schema.properties;
    required := set n | n in schema.required;
    var parts := AllOf(schema);
    var i := 0;
    NoPartYet(schema);
    while i < |parts|
      invariant 0 <= i <= |parts|
      invariant bases == Refs(parts[..i])
      invariant properties == schema.properties + InlineProperties(parts[..i])
      invariant required == (set n | n in schema.required) + InlineRequired(parts[..i])
    {
      assert parts[..i + 1] == parts[..i] + [parts[i]];
      OnePartMore(schema, parts[..i], parts[i]);
      if parts[i].Ref? {
        bases := bases + [parts[i].name];
      } else {
        properties := properties + parts[i].properties;
        required := required + set n | n in parts[i].required;
      }
      i := i + 1;
    }
    assert parts[..i] == parts;
    FirstRefIsHead(parts);
    base := if bases != [] then Some(bases[0]) else None;
  }

  /** The required names of a class are its own and those of its inline parts. */
  lemma {:induction false} InlineRequiredMembers(parts: seq<Part>, x: string)
    ensures x in InlineRequired(parts) <==> exists i :: 0 <= i < |parts| && parts[i].Inline? && x in parts[i].required
    decreases |parts|
  {
    if parts != [] {
      var init := parts[..|parts| - 1];
      InlineRequiredMembers(init, x);
      assert forall i :: 0 <= i < |init| ==> init[i] == parts[i];
    }
  }

  /** Part i is the last inline part that states property x. */
  ghost predicate StatesLast(parts: seq<Part>, i: int, x: string) {
    && 0 <= i < |parts| && parts[i].Inline? && x in parts[i].properties
    && forall j :: i < j < |parts| && parts[j].Inline? ==> x !in parts[j].properties
  }

  /** Of inline parts that state one property, the last one's schema is taken. */
  lemma {:induction false} InlinePropertiesMembers(parts: seq<Part>, x: string)
    ensures x in InlineProperties(parts) <==> exists i :: StatesLast(parts, i, x)
    ensures forall i :: StatesLast(parts, i, x) ==>
              x in InlineProperties(parts) && InlineProperties(parts)[x] == parts[i].properties[x]
    decreases |parts|
  {
    if parts != [] {
      var init, last := parts[..|parts| - 1], |parts| - 1;
      InlinePropertiesMembers(init, x);
      if parts[last].Inline? && x in parts[last].properties {
        assert StatesLast(parts, last, x);
      } else {
        forall i ensures StatesLast(init, i, x) <==> StatesLast(parts, i, x) {
          if StatesLast(init, i, x) { assert parts[i] == init[i]; }
          if StatesLast(parts, i, x) { assert parts[i] == init[i]; }
        }
      }
    }
  }

  lemma {:induction false} RefsMembers(parts: seq<Part>, name: string)
    ensures name in Refs(parts) <==> Ref(name) in parts
    decreases |parts|
  {
    if parts != [] {
      var init := parts[..|parts| - 1];
      RefsMembers(init, name);
      assert parts == init + [parts[|parts| - 1]];
    }
  }

  /** The fields an instance of the generated class has: inherited ones, overridden by its own. */
  ghost function ClassFields(env: Components, rank: map<string, nat>, name: string): (r: Fields)
    requires Acyclic(env, rank) && name in env
    decreases rank[name]
  {
    var parts := AllOf(env[name]);
    var own := env[name].properties + InlineProperties(parts);
    FirstRefMember(parts);
    if FirstRef(parts).None? then own
    else ClassFields(env, rank, FirstRef(parts).value) + own
  }

  lemma {:induction false} FirstRefMember(parts: seq<Part>)
    ensures FirstRef(parts).Some? ==> exists i :: 0 <= i < |parts| && parts[i] == Ref(FirstRef(parts).value)
  {
    if parts != [] && !parts[0].Ref? {
      FirstRefMember(parts[1..]);
      if FirstRef(parts).Some? {
        var i :| 0 <= i < |parts[1..]| && parts[1..][i] == Ref(FirstRef(parts).value);
        assert parts[i + 1] == Ref(FirstRef(parts).value);
      }
    }
  }

  // -----------------------------------------------------------------------------------------
  // Agreement

  /** Nothing beside allOf, at most one reference in it, and no bare reference outside it. */
  predicate Plain(c: Component) {
    if c.allOf.Some? then c.properties == map[] && |Refs(c.allOf.value)| <= 1 else c.ref.None?
  }

  /** Moreover the reference, if any, is the first part. */
  predicate BaseFirst(c: Component) {
    c.allOf.Some? ==> forall i :: 0 < i < |c.allOf.value| ==> c.allOf.value[i].Inline?
  }

  ghost function RefFields(env: Components, rank: map<string, nat>, names: seq<string>, bound: nat): (r: set<string>)
    requires Acyclic(env, rank)
    requires forall i :: 0 <= i < |names| ==> names[i] in env && rank[names[i]] < bound
  {
    set i, f | 0 <= i < |names| && f in Flattened(env, rank, names[i]).0.Keys :: f
  }

  lemma {:induction false} RefsBelow(env: Components, rank: map<string, nat>, parts: seq<Part>, bound: nat)
    requires Acyclic(env, rank) && Below(env, rank, parts, bound)
    ensures forall i :: 0 <= i < |Refs(parts)| ==> Refs(parts)[i] in env && rank[Refs(parts)[i]] < bound
    decreases |parts|
  {
    hide Acyclic;
    if parts != [] {
      RefsBelow(env, rank, parts[..|parts| - 1], bound);
    }
  }

  lemma RefFieldsAppend(env: Components, rank: map<string, nat>, names: seq<string>, name: string, bound: nat)
    requires Acyclic(env, rank)
    requires forall i :: 0 <= i < |names| ==> names[i] in env && rank[names[i]] < bound
    requires name in env && rank[name] < bound
    ensures RefFields(env, rank, names + [name], bound)
         == RefFields(env, rank, names, bound) + Flattened(env, rank, name).0.Keys
  {
    hide Acyclic, Flattened;
    var more := names + [name];
    forall f ensures f in RefFields(env, rank, more, bound)
                <==> f in RefFields(env, rank, names, bound) || f in Flattened(env, rank, name).0.Keys {
      if f in RefFields(env, rank, names, bound) {
        var i :| 0 <= i < |names| && f in Flattened(env, rank, names[i]).0.Keys;
        assert more[i] == names[i];
      }
      if f in Flattened(env, rank, name).0.Keys {
        assert more[|names|] == name;
      }
    }
  }

  /** The names `resolve` collects: those of every reference and of every inline part. */
  lemma {:induction false} FlattenedNames(env: Components, rank: map<string, nat>, parts: seq<Part>, bound: nat)
    requires Acyclic(env, rank) && Below(env, rank, parts, bound)
    requires forall i :: 0 <= i < |Refs(parts)| ==> Refs(parts)[i] in env && rank[Refs(parts)[i]] < bound
    ensures FlattenedParts(env, rank, parts, bound).0.Keys
         == RefFields(env, rank, Refs(parts), bound) + InlineProperties(parts).Keys
    decreases |parts|
  {
    hide Acyclic, Flattened, RefFields, Extend;
    if parts != [] {
      var init, last := parts[..|parts| - 1], parts[|parts| - 1];
      RefsBelow(env, rank, init, bound);
      FlattenedNames(env, rank, init, bound);
      if last.Ref? {
        RefFieldsAppend(env, rank, Refs(init), last.name, bound);
      } else {
        assert Refs(parts) == Refs(init);
      }
    } else {
      NoRefFields(env, rank, bound);
    }
  }

  lemma NoRefFields(env: Components, rank: map<string, nat>, bound: nat)
    requires Acyclic(env, rank)
    ensures RefFields(env, rank, [], bound) == {}
  {
  }

  lemma ObjectAgrees(env: Components, rank: map<string, nat>, name: string)
    requires Acyclic(env, rank) && name in env && env[name].allOf.None? && env[name].ref.None?
    ensures Flattened(env, rank, name).0 == env[name].properties == ClassFields(env, rank, name)
  {
    var parts := PartsOf(env[name]);
    assert FlattenedParts(env, rank, parts[..0], rank[name]) == (map[], []);
    assert parts[..0] == [];
    assert map[] + env[name].properties == env[name].properties;
    assert AllOf(env[name]) == [];
    assert env[name].properties + map[] == env[name].properties;
  }

  /** The fields that the class inherits: those of the first reference. */
  ghost function BaseFields(env: Components, rank: map<string, nat>, names: seq<string>, bound: nat): (r: set<string>)
    requires Acyclic(env, rank)
    requires forall i :: 0 <= i < |names| ==> names[i] in env && rank[names[i]] < bound
  {
    if names == [] then {} else Flattened(env, rank, names[0]).0.Keys
  }

  /** What the two views disagree about, said of the component: a field stated beside allOf that
      neither a reference nor an inline part brings, or a field of a later reference that neither
      the first one nor the component itself has. */
  ghost predicate NothingDropped(env: Components, rank: map<string, nat>, name: string)
    requires Acyclic(env, rank) && name in env && env[name].allOf.Some?
    requires forall i :: 0 <= i < |Refs(env[name].allOf.value)| ==>
               Refs(env[name].allOf.value)[i] in env && rank[Refs(env[name].allOf.value)[i]] < rank[name]
  {
    var refs := Refs(env[name].allOf.value);
    var inline := InlineProperties(env[name].allOf.value).Keys;
    && env[name].properties.Keys <= RefFields(env, rank, refs, rank[name]) + inline
    && forall i :: 1 <= i < |refs| ==>
         Flattened(env, rank, refs[i]).0.Keys <= BaseFields(env, rank, refs, rank[name]) + env[name].properties.Keys + inline
  }

  /** One step, for any component whose references agree: it agrees exactly if nothing is dropped. */
  lemma {:induction false} AgreementAtComponent(env: Components, rank: map<string, nat>, name: string)
    requires Acyclic(env, rank) && name in env && env[name].allOf.Some?
    requires forall m :: m in env && rank[m] < rank[name] ==>
               Flattened(env, rank, m).0.Keys == ClassFields(env, rank, m).Keys
    ensures forall i :: 0 <= i < |Refs(env[name].allOf.value)| ==>
              Refs(env[name].allOf.value)[i] in env && rank[Refs(env[name].allOf.value)[i]] < rank[name]
    ensures Flattened(env, rank, name).0.Keys == ClassFields(env, rank, name).Keys <==> NothingDropped(env, rank, name)
  {
    var parts := env[name].allOf.value;
    RefsBelow(env, rank, parts, rank[name]);
    NamesOfViews(env, rank, name);
    var fields := RefSets(env, rank, Refs(parts), rank[name]);
    SetsAgree(RefFields(env, rank, Refs(parts), rank[name]), InlineProperties(parts).Keys,
              BaseFields(env, rank, Refs(parts), rank[name]), env[name].properties.Keys, fields);
    DroppedBySets(env, rank, name, fields);
    hide *;
  }

  /** The field sets of the references, one by one, against their union. */
  lemma {:induction false} RefSets(env: Components, rank: map<string, nat>, refs: seq<string>, bound: nat)
    returns (fields: seq<set<string>>)
    requires Acyclic(env, rank)
    requires forall i :: 0 <= i < |refs| ==> refs[i] in env && rank[refs[i]] < bound
    ensures |fields| == |refs| && forall i :: 0 <= i < |refs| ==> fields[i] == Flattened(env, rank, refs[i]).0.Keys
    ensures forall i :: 0 <= i < |fields| ==> fields[i] <= RefFields(env, rank, refs, bound)
    ensures forall f :: f in RefFields(env, rank, refs, bound) ==>
              f in BaseFields(env, rank, refs, bound) || exists i :: 1 <= i < |fields| && f in fields[i]
  {
    hide Flattened;
    fields := seq(|refs|, i requires 0 <= i < |refs| => Flattened(env, rank, refs[i]).0.Keys);
    forall f | f in RefFields(env, rank, refs, bound)
      ensures f in BaseFields(env, rank, refs, bound) || exists i :: 1 <= i < |fields| && f in fields[i]
    {
      var i :| 0 <= i < |refs| && f in Flattened(env, rank, refs[i]).0.Keys;
      assert f in fields[i];
    }
  }

  lemma DroppedBySets(env: Components, rank: map<string, nat>, name: string, fields: seq<set<string>>)
    requires Acyclic(env, rank) && name in env && env[name].allOf.Some?
    requires forall i :: 0 <= i < |Refs(env[name].allOf.value)| ==>
               Refs(env[name].allOf.value)[i] in env && rank[Refs(env[name].allOf.value)[i]] < rank[name]
    requires |fields| == |Refs(env[name].allOf.value)|
    requires forall i :: 0 <= i < |fields| ==> fields[i] == Flattened(env, rank, Refs(env[name].allOf.value)[i]).0.Keys
    ensures var (refs, inline) := (Refs(env[name].allOf.value), InlineProperties(env[name].allOf.value).Keys);
            NothingDropped(env, rank, name) <==>
              && env[name].properties.Keys <= RefFields(env, rank, refs, rank[name]) + inline
              && forall i :: 1 <= i < |fields| ==>
                   fields[i] <= BaseFields(env, rank, refs, rank[name]) + env[name].properties.Keys + inline
  {
    hide Flattened, Refs, InlineProperties, RefFields, BaseFields;
  }

  lemma SetsAgree(all: set<string>, inline: set<string>, base: set<string>, beside: set<string>, fields: seq<set<string>>)
    requires base <= all && forall i :: 0 <= i < |fields| ==> fields[i] <= all
    requires forall f :: f in all ==> f in base || exists i :: 1 <= i < |fields| && f in fields[i]
    ensures all + inline == base + beside + inline
       <==> beside <= all + inline && forall i :: 1 <= i < |fields| ==> fields[i] <= base + beside + inline
  {
    if beside <= all + inline && forall i :: 1 <= i < |fields| ==> fields[i] <= base + beside + inline {
      forall f | f in all ensures f in base + beside + inline {
      }
      assert all + inline == base + beside + inline;
    }
  }

  lemma NamesOfViews(env: Components, rank: map<string, nat>, name: string)
    requires Acyclic(env, rank) && name in env && env[name].allOf.Some?
    requires forall m :: m in env && rank[m] < rank[name] ==>
               Flattened(env, rank, m).0.Keys == ClassFields(env, rank, m).Keys
    requires forall i :: 0 <= i < |Refs(env[name].allOf.value)| ==>
               Refs(env[name].allOf.value)[i] in env && rank[Refs(env[name].allOf.value)[i]] < rank[name]
    ensures var (refs, inline) := (Refs(env[name].allOf.value), InlineProperties(env[name].allOf.value).Keys);
            && Flattened(env, rank, name).0.Keys == RefFields(env, rank, refs, rank[name]) + inline
            && ClassFields(env, rank, name).Keys == BaseFields(env, rank, refs, rank[name]) + env[name].properties.Keys + inline
            && BaseFields(env, rank, refs, rank[name]) <= RefFields(env, rank, refs, rank[name])
  {
    var parts := env[name].allOf.value;
    RefsBelow(env, rank, parts, rank[name]);
    FlattenedNames(env, rank, parts, rank[name]);
    FirstRefIsHead(parts);
    hide FlattenedParts, Refs, InlineProperties;
  }

  /** On plain graphs both views have the same field names, to any depth of inheritance. */
  lemma {:induction false} NamesAgree(env: Components, rank: map<string, nat>, name: string)
    requires Acyclic(env, rank) && name in env && forall n :: n in env ==> Plain(env[n])
    ensures Flattened(env, rank, name).0.Keys == ClassFields(env, rank, name).Keys
    decreases rank[name]
  {
    hide Flattened, ClassFields, RefFields, Refs;
    if env[name].allOf.Some? {
      forall m | m in env && rank[m] < rank[name]
        ensures Flattened(env, rank, m).0.Keys == ClassFields(env, rank, m).Keys
      {
        NamesAgree(env, rank, m);
      }
      assert Plain(env[name]);
      AgreementAtComponent(env, rank, name);
      assert NothingDropped(env, rank, name);
    } else {
      ObjectAgrees(env, rank, name);
    }
  }

  /** A field stated beside allOf is a field of the class and is missing from the command table. */
  lemma {:induction false} PropertiesBesideAllOfDiffer(a: Json, b: Json)
    ensures var env := map["Base" := Component(None, map["a" := a], [], None),
                           "Derived" := Component(None, map["b" := b], [], Some([Ref("Base")]))];
            var rank := map["Base" := 0, "Derived" := 1];
            && Acyclic(env, rank)
            && Flattened(env, rank, "Derived").0.Keys == {"a"} && ClassFields(env, rank, "Derived").Keys == {"a", "b"}
  {
    var env := map["Base" := Component(None, map["a" := a], [], None),
                   "Derived" := Component(None, map["b" := b], [], Some([Ref("Base")]))];
    var rank := map["Base" := 0, "Derived" := 1];
    assert Acyclic(env, rank);
    ObjectAgrees(env, rank, "Base");
    var parts := [Ref("Base")];
    OneReference(env, rank, parts, 1);
    assert InlineProperties(parts[..0]) == map[] by { assert parts[..0] == []; }
  }

  lemma OneReference(env: Components, rank: map<string, nat>, parts: seq<Part>, bound: nat)
    requires Acyclic(env, rank) && Below(env, rank, parts, bound) && |parts| == 1 && parts[0].Ref?
    ensures FlattenedParts(env, rank, parts, bound).0.Keys == Flattened(env, rank, parts[0].name).0.Keys
  {
    hide Flattened;
    assert parts[..0] == [];
  }

  /** Of two bases, the command table has the fields of both and the class those of the first. */
  lemma {:induction false} SecondBaseDiffers(a: Json, b: Json)
    ensures var env := map["A" := Component(None, map["a" := a], [], None),
                           "B" := Component(None, map["b" := b], [], None),
                           "Both" := Component(None, map[], [], Some([Ref("A"), Ref("B")]))];
            var rank := map["A" := 0, "B" := 0, "Both" := 1];
            && Acyclic(env, rank)
            && Flattened(env, rank, "Both").0.Keys == {"a", "b"} && ClassFields(env, rank, "Both").Keys == {"a"}
  {
    var env := map["A" := Component(None, map["a" := a], [], None),
                   "B" := Component(None, map["b" := b], [], None),
                   "Both" := Component(None, map[], [], Some([Ref("A"), Ref("B")]))];
    var rank := map["A" := 0, "B" := 0, "Both" := 1];
    assert Acyclic(env, rank);
    ObjectAgrees(env, rank, "A");
    ObjectAgrees(env, rank, "B");
    var parts := [Ref("A"), Ref("B")];
    assert parts[..1] == [Ref("A")];
    OneReference(env, rank, parts[..1], 1);
    assert InlineProperties(parts) == map[] by {
      assert parts[..1][..0] == [];
      assert InlineProperties(parts[..1]) == map[] + map[];
    }
  }

  /** With bases first, even the schemas attached to the names are the same: a redefinition in the
      derived component wins in both. */
  lemma {:induction false} FieldsAgree(env: Components, rank: map<string, nat>, name: string)
    requires Acyclic(env, rank) && name in env
    requires forall n :: n in env ==> Plain(env[n]) && BaseFirst(env[n])
    ensures Flattened(env, rank, name).0 == ClassFields(env, rank, name)
    decreases rank[name]
  {
    hide FlattenedParts, InlineProperties, Refs;
    if env[name].allOf.Some? {
      var parts := env[name].allOf.value;
      assert Plain(env[name]) && BaseFirst(env[name]);
      assert map[] + InlineProperties(parts) == InlineProperties(parts);
      if parts != [] && parts[0].Ref? {
        FieldsAgree(env, rank, parts[0].name);
        BaseThenInline(env, rank, parts, rank[name]);
      } else {
        OnlyInline(env, rank, parts, rank[name]);
        NoRefs(parts);
      }
    } else {
      assert Plain(env[name]);
      ObjectAgrees(env, rank, name);
    }
  }

  lemma {:induction false} NoRefs(parts: seq<Part>)
    requires forall i :: 0 <= i < |parts| ==> parts[i].Inline?
    ensures FirstRef(parts) == None
  {
    if parts != [] {
      NoRefs(parts[1..]);
    }
  }

  lemma {:induction false} OnlyInline(env: Components, rank: map<string, nat>, parts: seq<Part>, bound: nat)
    requires Acyclic(env, rank) && Below(env, rank, parts, bound)
    requires forall i :: 0 <= i < |parts| ==> parts[i].Inline?
    ensures FlattenedParts(env, rank, parts, bound).0 == InlineProperties(parts)
    decreases |parts|
  {
    if parts != [] {
      OnlyInline(env, rank, parts[..|parts| - 1], bound);
    }
  }

  lemma {:induction false} BaseThenInline(env: Components, rank: map<string, nat>, parts: seq<Part>, bound: nat)
    requires Acyclic(env, rank) && Below(env, rank, parts, bound)
    requires parts != [] && parts[0].Ref? && forall i :: 0 < i < |parts| ==> parts[i].Inline?
    ensures FlattenedParts(env, rank, parts, bound).0
         == Flattened(env, rank, parts[0].name).0 + InlineProperties(parts)
    decreases |parts|
  {
    if |parts| > 1 {
      var init, last := parts[..|parts| - 1], parts[|parts| - 1];
      BaseThenInline(env, rank, init, bound);
      UpdateAssociates(Flattened(env, rank, parts[0].name).0, InlineProperties(init), last.properties);
    } else {
      assert parts[..0] == [];
    }
  }
}
