/** The translation of JSON Schema 2020-12 component schemas into Python annotations and TypeScript
    types, and what it preserves. */
module SchemaCompiler {
  import opened SqlLogic
  import opened JsonValues

  // -----------------------------------------------------------------------------------------
  // Schemas

  datatype TypeName = TNull | TString | TInteger | TNumber | TBoolean | TArray | TObject

  datatype TypeKeyword = NoType | One(name: TypeName) | Many(names: seq<TypeName>)

  datatype Additional = Absent | Open | Closed | Each(schema: Schema)

  datatype Group = NoGroup | Group(parts: seq<Schema>)

  datatype Schema = Schema(
    ref: Option<string>,
    constant: Option<Json>,
    enumeration: Option<seq<Json>>,
    anyOf: Group,
    oneOf: Group,
    typeKeyword: TypeKeyword,
    format: Option<string>,
    items: Option<Schema>,
    properties: seq<(string, Schema)>,
    additional: Additional)

  /** How references and formats are understood. In 2020-12 `format` is an annotation unless the
      format-assertion vocabulary is in use. */
  datatype Semantics = Semantics(
    named: (string, Json) -> bool,
    formatHolds: (string, string) -> bool,
    assertsFormat: bool)

  predicate HasType(t: TypeName, v: Json) {
    match t
    case TNull => v.JNull?
    case TString => v.JString?
    case TInteger => v.JNumber? && v.n == v.n.Floor as real
    case TNumber => v.JNumber?
    case TBoolean => v.JBool?
    case TArray => v.JArray?
    case TObject => v.JObject?
  }

  predicate TypeAllows(k: TypeKeyword, v: Json) {
    match k
    case NoType => true
    case One(t) => HasType(t, v)
    case Many(ts) => exists i | 0 <= i < |ts| :: HasType(ts[i], v)
  }

  predicate Declares(properties: seq<(string, Schema)>, name: string) {
    exists i | 0 <= i < |properties| :: properties[i].0 == name
  }

  /** Validation: every keyword present must hold (sections 10.2.1 and 10.3 of JSON Schema Core,
      section 6.1 of JSON Schema Validation). */
  ghost predicate Accepts(sem: Semantics, s: Schema, v: Json)
    decreases s
  {
    && (s.ref.Some? ==> sem.named(s.ref.value, v))
    && (s.constant.Some? ==> v == s.constant.value)
    && (s.enumeration.Some? ==> v in s.enumeration.value)
    && (s.anyOf.Group? ==> exists i | 0 <= i < |s.anyOf.parts| :: Accepts(sem, s.anyOf.parts[i], v))
    && (s.oneOf.Group? ==>
          exists i | 0 <= i < |s.oneOf.parts| ::
            && Accepts(sem, s.oneOf.parts[i], v)
            && forall j | 0 <= j < |s.oneOf.parts| && j != i :: !Accepts(sem, s.oneOf.parts[j], v))
    && TypeAllows(s.typeKeyword, v)
    && (sem.assertsFormat && s.format.Some? && v.JString? ==> sem.formatHolds(s.format.value, v.s))
    && (s.items.Some? && v.JArray? ==> forall i | 0 <= i < |v.items| :: Accepts(sem, s.items.value, v.items[i]))
    && (v.JObject? ==>
          && (forall i, k | 0 <= i < |s.properties| && k in v.members && s.properties[i].0 == k ::
                Accepts(sem, s.properties[i].1, v.members[k]))
          && (forall k | k in v.members && !Declares(s.properties, k) ::
                s.additional != Closed && (s.additional.Each? ==> Accepts(sem, s.additional.schema, v.members[k]))))
  }

  // -----------------------------------------------------------------------------------------
  // Rendered types: an annotation is the list of its alternatives, in order

  datatype PyType =
    | PyRef(name: string)
    | PyLiteral(values: seq<Json>)
    | PyNone | PyDatetime | PyAnyUrl | PyUuid | PyStr | PyInt | PyFloat | PyBool | PyAny
    | PyList(element: seq<PyType>)
    | PyDict(value: seq<PyType>)

  datatype TsType =
    | TsRef(name: string)
    | TsLiteral(value: Json)
    | TsNull | TsString | TsNumber | TsBoolean | TsUnknown
    | TsArray(element: seq<TsType>)
    | TsRecord(item: seq<TsType>)

  /** dict.fromkeys: the first occurrence of each rendered part is kept. */
  function Dedup<T(==)>(parts: seq<T>): (r: seq<T>) {
    if parts == [] then []
    else
      var kept := Dedup(parts[..|parts| - 1]);
      if parts[|parts| - 1] in kept then kept else kept + [parts[|parts| - 1]]
  }

  function Flatten<T>(parts: seq<seq<T>>): (r: seq<T>) {
    if parts == [] then [] else parts[0] + Flatten(parts[1..])
  }

  predicate UnionOfOneOf(s: Schema) {
    s.oneOf.Group? && (s.typeKeyword.NoType? || s.typeKeyword == Many([])) && s.properties == []
  }

  /** _python_type without a field name. */
  function Python(s: Schema): (r: seq<PyType>)
    decreases s, 1
  {
    if s.ref.Some? then [PyRef(s.ref.value)]
    else if s.constant.Some? then [PyLiteral([s.constant.value])]
    else if s.enumeration.Some? then [PyLiteral(s.enumeration.value)]
    else if s.anyOf.Group? then Flatten(Dedup(PythonParts(s.anyOf.parts)))
    else if UnionOfOneOf(s) then Flatten(Dedup(PythonParts(s.oneOf.parts)))
    else match s.typeKeyword
      case Many(ts) => Flatten(Dedup(seq(|ts|, i requires 0 <= i < |ts| => PythonTyped(s, ts[i]))))
      case One(t) => PythonTyped(s, t)
      case NoType => if s.additional.Absent? then [PyAny] else PythonTyped(s, TObject)
  }

  function PythonParts(ss: seq<Schema>): (r: seq<seq<PyType>>)
    ensures |r| == |ss|
    decreases ss, 0
  {
    seq(|ss|, i requires 0 <= i < |ss| => Python(ss[i]))
  }

  /** The tail of _python_type once a single type name is known. */
  function PythonTyped(s: Schema, t: TypeName): (r: seq<PyType>)
    decreases s, 0
  {
    match t
    case TNull => [PyNone]
    case TString =>
      if s.format == Some("date-time") then [PyDatetime]
      else if s.format == Some("uri") then [PyAnyUrl]
      else if s.format == Some("uuid") then [PyUuid]
      else [PyStr]
    case TInteger => [PyInt]
    case TNumber => [PyFloat]
    case TBoolean => [PyBool]
    case TArray => [PyList(if s.items.Some? then Python(s.items.value) else [PyAny])]
    case TObject => [PyDict(if s.additional.Each? then Python(s.additional.schema) else [PyAny])]
  }

  /** _typescript_type */
  function TypeScript(s: Schema): (r: seq<TsType>)
    decreases s, 1
  {
    if s.ref.Some? then [TsRef(s.ref.value)]
    else if s.constant.Some? then [TsLiteral(s.constant.value)]
    else if s.enumeration.Some? then
      var vs := s.enumeration.value;
      seq(|vs|, i requires 0 <= i < |vs| => TsLiteral(vs[i]))
    else if s.anyOf.Group? then Flatten(Dedup(TypeScriptParts(s.anyOf.parts)))
    else if UnionOfOneOf(s) then Flatten(Dedup(TypeScriptParts(s.oneOf.parts)))
    else match s.typeKeyword
      case Many(ts) => Flatten(Dedup(seq(|ts|, i requires 0 <= i < |ts| => TypeScriptTyped(s, ts[i]))))
      case One(t) => TypeScriptTyped(s, t)
      case NoType => if s.additional.Absent? then [TsUnknown] else TypeScriptTyped(s, TObject)
  }

  function TypeScriptParts(ss: seq<Schema>): (r: seq<seq<TsType>>)
    ensures |r| == |ss|
    decreases ss, 0
  {
    seq(|ss|, i requires 0 <= i < |ss| => TypeScript(ss[i]))
  }

  function TypeScriptTyped(s: Schema, t: TypeName): (r: seq<TsType>)
    decreases s, 0
  {
    match t
    case TNull => [TsNull]
    case TString => [TsString]
    case TInteger => [TsNumber]
    case TNumber => [TsNumber]
    case TBoolean => [TsBoolean]
    case TArray => [TsArray(if s.items.Some? then TypeScript(s.items.value) else [TsUnknown])]
    case TObject => [TsRecord(if s.additional.Each? then TypeScript(s.additional.schema) else [TsUnknown])]
  }

  /** The step {**schema, "type": item} of the source really is the single-type tail, so replacing
      a list of types by one of its names is where that recursion ends. */
  lemma TypeListStep(s: Schema, t: TypeName)
    requires s.ref.None? && s.constant.None? && s.enumeration.None? && s.anyOf.NoGroup?
    ensures Python(s.(typeKeyword := One(t))) == PythonTyped(s, t)
    ensures TypeScript(s.(typeKeyword := One(t))) == TypeScriptTyped(s, t)
  {
  }

  // -----------------------------------------------------------------------------------------
  // Membership in a rendered type

  ghost predicate InPython(sem: Semantics, alternatives: seq<PyType>, v: Json)
    decreases alternatives
  {
    exists i | 0 <= i < |alternatives| :: InPyType(sem, alternatives[i], v)
  }

  ghost predicate InPyType(sem: Semantics, t: PyType, v: Json)
    decreases t
  {
    match t
    case PyRef(name) => sem.named(name, v)
    case PyLiteral(values) => v in values
    case PyNone => v.JNull?
    case PyDatetime => v.JString? && sem.formatHolds("date-time", v.s)
    case PyAnyUrl => v.JString? && sem.formatHolds("uri", v.s)
    case PyUuid => v.JString? && sem.formatHolds("uuid", v.s)
    case PyStr => v.JString?
    case PyInt => HasType(TInteger, v)
    case PyFloat => v.JNumber?
    case PyBool => v.JBool?
    case PyAny => true
    case PyList(e) => v.JArray? && forall i | 0 <= i < |v.items| :: InPython(sem, e, v.items[i])
    case PyDict(e) => v.JObject? && forall k | k in v.members :: InPython(sem, e, v.members[k])
  }

  ghost predicate InTypeScript(sem: Semantics, alternatives: seq<TsType>, v: Json)
    decreases alternatives
  {
    exists i | 0 <= i < |alternatives| :: InTsType(sem, alternatives[i], v)
  }

  ghost predicate InTsType(sem: Semantics, t: TsType, v: Json)
    decreases t
  {
    match t
    case TsRef(name) => sem.named(name, v)
    case TsLiteral(value) => v == value
    case TsNull => v.JNull?
    case TsString => v.JString?
    case TsNumber => v.JNumber?
    case TsBoolean => v.JBool?
    case TsUnknown => true
    case TsArray(e) => v.JArray? && forall i | 0 <= i < |v.items| :: InTypeScript(sem, e, v.items[i])
    case TsRecord(e) => v.JObject? && forall k | k in v.members :: InTypeScript(sem, e, v.members[k])
  }

  // -----------------------------------------------------------------------------------------
  // Unions

  lemma {:induction false} DedupKeepsElements<T>(parts: seq<T>, x: T)
    ensures x in Dedup(parts) <==> x in parts
  {
    if parts != [] {
      DedupKeepsElements(parts[..|parts| - 1], x);
      DedupKeepsElements(parts[..|parts| - 1], parts[|parts| - 1]);
      assert parts == parts[..|parts| - 1] + [parts[|parts| - 1]];
    }
  }

  lemma {:induction false} FlattenMembers<T>(parts: seq<seq<T>>, x: T)
    ensures x in Flatten(parts) <==> exists p :: p in parts && x in p
  {
    if parts != [] {
      FlattenMembers(parts[1..], x);
      assert parts == [parts[0]] + parts[1..];
      if p :| p in parts && x in p {
        assert p == parts[0] || p in parts[1..];
      }
    }
  }

  lemma {:induction false} UnionMembers<T>(parts: seq<seq<T>>, x: T)
    ensures x in Flatten(Dedup(parts)) <==> exists i :: 0 <= i < |parts| && x in parts[i]
  {
    FlattenMembers(Dedup(parts), x);
    if p :| p in Dedup(parts) && x in p {
      DedupKeepsElements(parts, p);
    }
    if i :| 0 <= i < |parts| && x in parts[i] {
      DedupKeepsElements(parts, parts[i]);
    }
  }

  lemma {:induction false} UnionMeaningPython(sem: Semantics, parts: seq<seq<PyType>>, v: Json)
    ensures InPython(sem, Flatten(Dedup(parts)), v) <==> exists i :: 0 <= i < |parts| && InPython(sem, parts[i], v)
  {
    var all := Flatten(Dedup(parts));
    if i :| 0 <= i < |parts| && InPython(sem, parts[i], v) { InUnionPython(sem, parts, i, v); }
    if a :| 0 <= a < |all| && InPyType(sem, all[a], v) {
      UnionMembers(parts, all[a]);
      var i :| 0 <= i < |parts| && all[a] in parts[i];
      var b :| 0 <= b < |parts[i]| && parts[i][b] == all[a];
      assert InPython(sem, parts[i], v);
    }
  }

  lemma {:induction false} UnionMeaningTypeScript(sem: Semantics, parts: seq<seq<TsType>>, v: Json)
    ensures InTypeScript(sem, Flatten(Dedup(parts)), v) <==> exists i :: 0 <= i < |parts| && InTypeScript(sem, parts[i], v)
  {
    var all := Flatten(Dedup(parts));
    if i :| 0 <= i < |parts| && InTypeScript(sem, parts[i], v) { InUnionTypeScript(sem, parts, i, v); }
    if a :| 0 <= a < |all| && InTsType(sem, all[a], v) {
      UnionMembers(parts, all[a]);
      var i :| 0 <= i < |parts| && all[a] in parts[i];
      var b :| 0 <= b < |parts[i]| && parts[i][b] == all[a];
      assert InTypeScript(sem, parts[i], v);
    }
  }

  // -----------------------------------------------------------------------------------------
  // What each form of schema is rendered to, said of the values

  predicate NoKeywordBefore(s: Schema) {
    s.ref.None? && s.constant.None? && s.enumeration.None?
  }

  /** No keyword but `type` decides how the schema is rendered. */
  predicate NoUnion(s: Schema) {
    s.ref.None? && s.constant.None? && s.enumeration.None? && s.anyOf.NoGroup? && s.oneOf.NoGroup?
  }

  /** A reference decides alone; then a constant; then an enumeration. */
  lemma {:induction false} ValueKeywordsDecide(sem: Semantics, s: Schema, v: Json)
    ensures s.ref.Some? ==> (InPython(sem, Python(s), v) <==> sem.named(s.ref.value, v))
    ensures s.ref.None? && s.constant.Some? ==> (InPython(sem, Python(s), v) <==> v == s.constant.value)
    ensures s.ref.None? && s.constant.None? && s.enumeration.Some? ==>
              (InPython(sem, Python(s), v) <==> v in s.enumeration.value)
    ensures s.ref.Some? ==> (InTypeScript(sem, TypeScript(s), v) <==> sem.named(s.ref.value, v))
    ensures s.ref.None? && s.constant.Some? ==> (InTypeScript(sem, TypeScript(s), v) <==> v == s.constant.value)
    ensures s.ref.None? && s.constant.None? && s.enumeration.Some? ==>
              (InTypeScript(sem, TypeScript(s), v) <==> v in s.enumeration.value)
  {
    var p, t := Python(s), TypeScript(s);
    if s.ref.Some? || s.constant.Some? {
      assert InPython(sem, p, v) <==> InPyType(sem, p[0], v);
      assert InTypeScript(sem, t, v) <==> InTsType(sem, t[0], v);
    } else if s.enumeration.Some? {
      assert InPython(sem, p, v) <==> InPyType(sem, p[0], v);
      assert forall i | 0 <= i < |t| :: InTsType(sem, t[i], v) <==> v == s.enumeration.value[i];
    }
  }

  lemma PartsAreRendered(ss: seq<Schema>)
    ensures forall i | 0 <= i < |ss| :: PythonParts(ss)[i] == Python(ss[i])
    ensures forall i | 0 <= i < |ss| :: TypeScriptParts(ss)[i] == TypeScript(ss[i])
  {
  }

  /** anyOf is the union of its parts. */
  lemma {:induction false} AnyOfIsUnion(sem: Semantics, s: Schema, v: Json)
    requires s.ref.None? && s.constant.None? && s.enumeration.None? && s.anyOf.Group?
    ensures InPython(sem, Python(s), v) <==>
              exists i :: 0 <= i < |s.anyOf.parts| && InPython(sem, Python(s.anyOf.parts[i]), v)
    ensures InTypeScript(sem, TypeScript(s), v) <==>
              exists i :: 0 <= i < |s.anyOf.parts| && InTypeScript(sem, TypeScript(s.anyOf.parts[i]), v)
  {
    assert Python(s) == Flatten(Dedup(PythonParts(s.anyOf.parts)));
    assert TypeScript(s) == Flatten(Dedup(TypeScriptParts(s.anyOf.parts)));
    PartsAreRendered(s.anyOf.parts);
    hide *;
    UnionMeaningPython(sem, PythonParts(s.anyOf.parts), v);
    UnionMeaningTypeScript(sem, TypeScriptParts(s.anyOf.parts), v);
  }

  /** Without anyOf, oneOf is the union of its parts when neither a type nor properties stand beside it... */
  lemma {:induction false} OneOfIsUnion(sem: Semantics, s: Schema, v: Json)
    requires s.ref.None? && s.constant.None? && s.enumeration.None? && s.anyOf.NoGroup?
    requires s.oneOf.Group? && (s.typeKeyword == NoType || s.typeKeyword == Many([])) && s.properties == []
    ensures InPython(sem, Python(s), v) <==>
              exists i :: 0 <= i < |s.oneOf.parts| && InPython(sem, Python(s.oneOf.parts[i]), v)
    ensures InTypeScript(sem, TypeScript(s), v) <==>
              exists i :: 0 <= i < |s.oneOf.parts| && InTypeScript(sem, TypeScript(s.oneOf.parts[i]), v)
  {
    assert Python(s) == Flatten(Dedup(PythonParts(s.oneOf.parts)));
    assert TypeScript(s) == Flatten(Dedup(TypeScriptParts(s.oneOf.parts)));
    PartsAreRendered(s.oneOf.parts);
    hide *;
    UnionMeaningPython(sem, PythonParts(s.oneOf.parts), v);
    UnionMeaningTypeScript(sem, TypeScriptParts(s.oneOf.parts), v);
  }

  /** ... and is otherwise not looked at. */
  lemma OneOfIgnoredBesideType(s: Schema)
    requires s.anyOf.Group? || s.properties != [] || (s.typeKeyword != NoType && s.typeKeyword != Many([]))
    ensures Python(s) == Python(s.(oneOf := NoGroup)) && TypeScript(s) == TypeScript(s.(oneOf := NoGroup))
  {
    var bare := s.(oneOf := NoGroup);
    match s.typeKeyword
    case Many(ts) =>
      assert forall i | 0 <= i < |ts| :: PythonTyped(s, ts[i]) == PythonTyped(bare, ts[i]);
      assert forall i | 0 <= i < |ts| :: TypeScriptTyped(s, ts[i]) == TypeScriptTyped(bare, ts[i]);
      assert seq(|ts|, i requires 0 <= i < |ts| => PythonTyped(s, ts[i]))
          == seq(|ts|, i requires 0 <= i < |ts| => PythonTyped(bare, ts[i]));
      assert seq(|ts|, i requires 0 <= i < |ts| => TypeScriptTyped(s, ts[i]))
          == seq(|ts|, i requires 0 <= i < |ts| => TypeScriptTyped(bare, ts[i]));
    case _ =>
  }

  /** A list of types is the union of the single ones. */
  lemma {:induction false} TypeListIsUnion(sem: Semantics, s: Schema, v: Json)
    requires NoUnion(s) && s.typeKeyword.Many?
    ensures InPython(sem, Python(s), v) <==>
              exists i :: 0 <= i < |s.typeKeyword.names| && InPython(sem, Python(s.(typeKeyword := One(s.typeKeyword.names[i]))), v)
    ensures InTypeScript(sem, TypeScript(s), v) <==>
              exists i :: 0 <= i < |s.typeKeyword.names| && InTypeScript(sem, TypeScript(s.(typeKeyword := One(s.typeKeyword.names[i]))), v)
  {
    var ts := s.typeKeyword.names;
    var python := seq(|ts|, i requires 0 <= i < |ts| => PythonTyped(s, ts[i]));
    var typescript := seq(|ts|, i requires 0 <= i < |ts| => TypeScriptTyped(s, ts[i]));
    assert Python(s) == Flatten(Dedup(python)) && TypeScript(s) == Flatten(Dedup(typescript));
    forall i | 0 <= i < |ts|
      ensures python[i] == Python(s.(typeKeyword := One(ts[i])))
      ensures typescript[i] == TypeScript(s.(typeKeyword := One(ts[i])))
    {
      TypeListStep(s, ts[i]);
    }
    hide *;
    UnionMeaningPython(sem, python, v);
    UnionMeaningTypeScript(sem, typescript, v);
  }

  lemma {:induction false} OneAlternative(sem: Semantics, p: PyType, t: TsType, v: Json)
    ensures InPython(sem, [p], v) <==> InPyType(sem, p, v)
    ensures InTypeScript(sem, [t], v) <==> InTsType(sem, t, v)
  {
    var (ps, ts) := ([p], [t]);
    assert ps[0] == p && ts[0] == t;
  }

  lemma ElementTypes(sem: Semantics, p: seq<PyType>, t: seq<TsType>, v: Json)
    ensures InPyType(sem, PyList(p), v) <==> v.JArray? && forall i | 0 <= i < |v.items| :: InPython(sem, p, v.items[i])
    ensures InPyType(sem, PyDict(p), v) <==> v.JObject? && forall k | k in v.members :: InPython(sem, p, v.members[k])
    ensures InTsType(sem, TsArray(t), v) <==> v.JArray? && forall i | 0 <= i < |v.items| :: InTypeScript(sem, t, v.items[i])
    ensures InTsType(sem, TsRecord(t), v) <==> v.JObject? && forall k | k in v.members :: InTypeScript(sem, t, v.members[k])
  {
  }

  /** A single type name is rendered to the values of that type: integral numbers for integer,
      formatted strings in Python only, and arrays and objects element by element. */
  lemma {:induction false} SingleTypeMeaning(sem: Semantics, s: Schema, v: Json)
    requires NoUnion(s) && s.typeKeyword.One?
    ensures InPython(sem, Python(s), v) <==>
              match s.typeKeyword.name
              case TNull => v.JNull?
              case TBoolean => v.JBool?
              case TNumber => v.JNumber?
              case TInteger => v.JNumber? && v.n == v.n.Floor as real
              case TString =>
                && v.JString?
                && (s.format.Some? && s.format.value in {"date-time", "uri", "uuid"} ==> sem.formatHolds(s.format.value, v.s))
              case TArray =>
                && v.JArray?
                && (s.items.Some? ==> forall i | 0 <= i < |v.items| :: InPython(sem, Python(s.items.value), v.items[i]))
              case TObject =>
                && v.JObject?
                && (s.additional.Each? ==>
                      forall k | k in v.members :: InPython(sem, Python(s.additional.schema), v.members[k]))
    ensures InTypeScript(sem, TypeScript(s), v) <==>
              match s.typeKeyword.name
              case TNull => v.JNull?
              case TBoolean => v.JBool?
              case TNumber => v.JNumber?
              case TInteger => v.JNumber?
              case TString => v.JString?
              case TArray =>
                && v.JArray?
                && (s.items.Some? ==> forall i | 0 <= i < |v.items| :: InTypeScript(sem, TypeScript(s.items.value), v.items[i]))
              case TObject =>
                && v.JObject?
                && (s.additional.Each? ==>
                      forall k | k in v.members :: InTypeScript(sem, TypeScript(s.additional.schema), v.members[k]))
  {
    var name := s.typeKeyword.name;
    var p, t := PythonTyped(s, name)[0], TypeScriptTyped(s, name)[0];
    assert Python(s) == [p] && TypeScript(s) == [t];
    OneAlternative(sem, p, t, v);
    AnyAdmits(sem);
    if name.TArray? {
      ListMeaning(sem, s, v);
    } else if name.TObject? {
      ObjectMeaning(sem, s, v);
    }
    hide InPython, InTypeScript, Python, TypeScript;
  }

  lemma {:induction false} ListMeaning(sem: Semantics, s: Schema, v: Json)
    ensures InPyType(sem, PythonTyped(s, TArray)[0], v) <==>
              && v.JArray?
              && (s.items.Some? ==> forall i | 0 <= i < |v.items| :: InPython(sem, Python(s.items.value), v.items[i]))
    ensures InTsType(sem, TypeScriptTyped(s, TArray)[0], v) <==>
              && v.JArray?
              && (s.items.Some? ==> forall i | 0 <= i < |v.items| :: InTypeScript(sem, TypeScript(s.items.value), v.items[i]))
  {
    var p, t := if s.items.Some? then Python(s.items.value) else [PyAny], if s.items.Some? then TypeScript(s.items.value) else [TsUnknown];
    assert PythonTyped(s, TArray)[0] == PyList(p) && TypeScriptTyped(s, TArray)[0] == TsArray(t);
    ElementTypes(sem, p, t, v);
    AnyAdmits(sem);
    hide InPython, InPyType, InTypeScript, InTsType, Python, TypeScript, PythonTyped, TypeScriptTyped;
  }

  lemma {:induction false} ObjectMeaning(sem: Semantics, s: Schema, v: Json)
    ensures InPyType(sem, PythonTyped(s, TObject)[0], v) <==>
              && v.JObject?
              && (s.additional.Each? ==> forall k | k in v.members :: InPython(sem, Python(s.additional.schema), v.members[k]))
    ensures InTsType(sem, TypeScriptTyped(s, TObject)[0], v) <==>
              && v.JObject?
              && (s.additional.Each? ==> forall k | k in v.members :: InTypeScript(sem, TypeScript(s.additional.schema), v.members[k]))
  {
    var p := if s.additional.Each? then Python(s.additional.schema) else [PyAny];
    var t := if s.additional.Each? then TypeScript(s.additional.schema) else [TsUnknown];
    assert PythonTyped(s, TObject)[0] == PyDict(p) && TypeScriptTyped(s, TObject)[0] == TsRecord(t);
    ElementTypes(sem, p, t, v);
    AnyAdmits(sem);
    hide InPython, InPyType, InTypeScript, InTsType, Python, TypeScript, PythonTyped, TypeScriptTyped;
  }

  lemma AnyAdmits(sem: Semantics)
    ensures forall w: Json :: InPython(sem, [PyAny], w) && InTypeScript(sem, [TsUnknown], w)
  {
    forall w: Json ensures InPython(sem, [PyAny], w) && InTypeScript(sem, [TsUnknown], w) {
      assert InPyType(sem, [PyAny][0], w) && InTsType(sem, [TsUnknown][0], w);
    }
  }

  // -----------------------------------------------------------------------------------------
  // Soundness

  /** The hypotheses on a schema: additionalProperties comes with a type, and a schema-valued one
      has no sibling properties; hereditarily, wherever the translation descends. */
  predicate WellFormed(s: Schema)
    decreases s
  {
    && (s.additional.Absent? || s.typeKeyword != NoType)
    && (s.additional.Each? ==> s.properties == [] && WellFormed(s.additional.schema))
    && (s.items.Some? ==> WellFormed(s.items.value))
    && (s.anyOf.Group? ==> forall i | 0 <= i < |s.anyOf.parts| :: WellFormed(s.anyOf.parts[i]))
    && (s.oneOf.Group? ==> forall i | 0 <= i < |s.oneOf.parts| :: WellFormed(s.oneOf.parts[i]))
  }

  /** The type-level meaning of a name may be wider than its schema's. */
  ghost predicate Widens(types: Semantics, schemas: Semantics) {
    && types.formatHolds == schemas.formatHolds
    && forall n: string, v: Json :: schemas.named(n, v) ==> types.named(n, v)
  }

  lemma InUnionPython(sem: Semantics, parts: seq<seq<PyType>>, i: nat, v: Json)
    requires i < |parts| && InPython(sem, parts[i], v)
    ensures InPython(sem, Flatten(Dedup(parts)), v)
  {
    var a :| 0 <= a < |parts[i]| && InPyType(sem, parts[i][a], v);
    UnionMembers(parts, parts[i][a]);
  }

  lemma InUnionTypeScript(sem: Semantics, parts: seq<seq<TsType>>, i: nat, v: Json)
    requires i < |parts| && InTypeScript(sem, parts[i], v)
    ensures InTypeScript(sem, Flatten(Dedup(parts)), v)
  {
    var a :| 0 <= a < |parts[i]| && InTsType(sem, parts[i][a], v);
    UnionMembers(parts, parts[i][a]);
  }

  /** Every value a well-formed schema accepts inhabits the Python annotation rendered for it. */
  lemma {:induction false} PythonSound(schemas: Semantics, types: Semantics, s: Schema, v: Json)
    requires WellFormed(s) && Widens(types, schemas) && schemas.assertsFormat
    requires Accepts(schemas, s, v)
    ensures InPython(types, Python(s), v)
    decreases s, 1
  {
    if s.ref.Some? || s.constant.Some? || s.enumeration.Some? {
      assert InPyType(types, Python(s)[0], v);
    } else if s.anyOf.Group? {
      var i :| 0 <= i < |s.anyOf.parts| && Accepts(schemas, s.anyOf.parts[i], v);
      PythonSound(schemas, types, s.anyOf.parts[i], v);
      InUnionPython(types, PythonParts(s.anyOf.parts), i, v);
    } else if UnionOfOneOf(s) {
      var i :| 0 <= i < |s.oneOf.parts| && Accepts(schemas, s.oneOf.parts[i], v);
      PythonSound(schemas, types, s.oneOf.parts[i], v);
      InUnionPython(types, PythonParts(s.oneOf.parts), i, v);
    } else {
      match s.typeKeyword
      case Many(ts) =>
        var i :| 0 <= i < |ts| && HasType(ts[i], v);
        PythonTypedSound(schemas, types, s, ts[i], v);
        InUnionPython(types, seq(|ts|, i requires 0 <= i < |ts| => PythonTyped(s, ts[i])), i, v);
      case One(t) => PythonTypedSound(schemas, types, s, t, v);
      case NoType => assert InPyType(types, Python(s)[0], v);
    }
  }

  lemma {:induction false} PythonTypedSound(schemas: Semantics, types: Semantics, s: Schema, t: TypeName, v: Json)
    requires WellFormed(s) && Widens(types, schemas) && schemas.assertsFormat
    requires Accepts(schemas, s, v) && HasType(t, v)
    ensures InPython(types, PythonTyped(s, t), v)
    decreases s, 0
  {
    if t == TArray && s.items.Some? {
      forall i | 0 <= i < |v.items| ensures InPython(types, Python(s.items.value), v.items[i]) {
        PythonSound(schemas, types, s.items.value, v.items[i]);
      }
    } else if t == TArray {
      forall i | 0 <= i < |v.items| ensures InPython(types, [PyAny], v.items[i]) {
        assert InPyType(types, [PyAny][0], v.items[i]);
      }
    } else if t == TObject && s.additional.Each? {
      forall k | k in v.members ensures InPython(types, Python(s.additional.schema), v.members[k]) {
        assert !Declares(s.properties, k);
        PythonSound(schemas, types, s.additional.schema, v.members[k]);
      }
    } else if t == TObject {
      forall k | k in v.members ensures InPython(types, [PyAny], v.members[k]) {
        assert InPyType(types, [PyAny][0], v.members[k]);
      }
    }
    assert InPyType(types, PythonTyped(s, t)[0], v);
  }

  /** The same for TypeScript, where formats are erased and so need not be asserted. */
  lemma {:induction false} TypeScriptSound(schemas: Semantics, types: Semantics, s: Schema, v: Json)
    requires WellFormed(s) && Widens(types, schemas)
    requires Accepts(schemas, s, v)
    ensures InTypeScript(types, TypeScript(s), v)
    decreases s, 1
  {
    if s.ref.Some? || s.constant.Some? {
      assert InTsType(types, TypeScript(s)[0], v);
    } else if s.enumeration.Some? {
      var i :| 0 <= i < |s.enumeration.value| && s.enumeration.value[i] == v;
      assert InTsType(types, TypeScript(s)[i], v);
    } else if s.anyOf.Group? {
      var i :| 0 <= i < |s.anyOf.parts| && Accepts(schemas, s.anyOf.parts[i], v);
      TypeScriptSound(schemas, types, s.anyOf.parts[i], v);
      InUnionTypeScript(types, TypeScriptParts(s.anyOf.parts), i, v);
    } else if UnionOfOneOf(s) {
      var i :| 0 <= i < |s.oneOf.parts| && Accepts(schemas, s.oneOf.parts[i], v);
      TypeScriptSound(schemas, types, s.oneOf.parts[i], v);
      InUnionTypeScript(types, TypeScriptParts(s.oneOf.parts), i, v);
    } else {
      match s.typeKeyword
      case Many(ts) =>
        var i :| 0 <= i < |ts| && HasType(ts[i], v);
        TypeScriptTypedSound(schemas, types, s, ts[i], v);
        InUnionTypeScript(types, seq(|ts|, i requires 0 <= i < |ts| => TypeScriptTyped(s, ts[i])), i, v);
      case One(t) => TypeScriptTypedSound(schemas, types, s, t, v);
      case NoType => assert InTsType(types, TypeScript(s)[0], v);
    }
  }

  lemma {:induction false} TypeScriptTypedSound(schemas: Semantics, types: Semantics, s: Schema, t: TypeName, v: Json)
    requires WellFormed(s) && Widens(types, schemas)
    requires Accepts(schemas, s, v) && HasType(t, v)
    ensures InTypeScript(types, TypeScriptTyped(s, t), v)
    decreases s, 0
  {
    if t == TArray && s.items.Some? {
      forall i | 0 <= i < |v.items| ensures InTypeScript(types, TypeScript(s.items.value), v.items[i]) {
        TypeScriptSound(schemas, types, s.items.value, v.items[i]);
      }
    } else if t == TArray {
      forall i | 0 <= i < |v.items| ensures InTypeScript(types, [TsUnknown], v.items[i]) {
        assert InTsType(types, [TsUnknown][0], v.items[i]);
      }
    } else if t == TObject && s.additional.Each? {
      forall k | k in v.members ensures InTypeScript(types, TypeScript(s.additional.schema), v.members[k]) {
        assert !Declares(s.properties, k);
        TypeScriptSound(schemas, types, s.additional.schema, v.members[k]);
      }
    } else if t == TObject {
      forall k | k in v.members ensures InTypeScript(types, [TsUnknown], v.members[k]) {
        assert InTsType(types, [TsUnknown][0], v.members[k]);
      }
    }
    assert InTsType(types, TypeScriptTyped(s, t)[0], v);
  }

  // -----------------------------------------------------------------------------------------
  // Precision: where nothing is dropped, the annotation denotes the schema exactly

  predicate Bare(s: Schema) {
    s.typeKeyword.NoType? && s.format.None? && s.items.None? && s.properties == [] && s.additional.Absent?
  }

  predicate Untyped(s: Schema) {
    Bare(s) && s.oneOf.NoGroup?
  }

  /** No value is accepted by two of the parts. */
  ghost predicate Disjoint(sem: Semantics, parts: seq<Schema>) {
    forall i, j, v: Json | 0 <= i < j < |parts| :: !(Accepts(sem, parts[i], v) && Accepts(sem, parts[j], v))
  }

  /** One constraint at a time, formats that Python knows, objects described by their values, and
      alternatives of a oneOf that exclude each other. */
  ghost predicate Precise(sem: Semantics, s: Schema)
    decreases s
  {
    if s.ref.Some? then Untyped(s) && s.constant.None? && s.enumeration.None? && s.anyOf.NoGroup?
    else if s.constant.Some? then Untyped(s) && s.enumeration.None? && s.anyOf.NoGroup?
    else if s.enumeration.Some? then Untyped(s) && s.anyOf.NoGroup?
    else if s.anyOf.Group? then Untyped(s) && forall i | 0 <= i < |s.anyOf.parts| :: Precise(sem, s.anyOf.parts[i])
    else if s.oneOf.Group? then
      && Bare(s) && Disjoint(sem, s.oneOf.parts)
      && forall i | 0 <= i < |s.oneOf.parts| :: Precise(sem, s.oneOf.parts[i])
    else if s.typeKeyword.NoType? then Untyped(s)
    else
      && s.properties == [] && s.additional != Closed
      && (s.format.Some? ==> s.format.value in {"date-time", "uri", "uuid"})
      && (s.items.Some? ==> Precise(sem, s.items.value))
      && (s.additional.Each? ==> Precise(sem, s.additional.schema))
  }

  /** Every inhabitant of the annotation of a precise schema is accepted by it. */
  lemma {:induction false} PythonPrecise(sem: Semantics, s: Schema, v: Json)
    requires Precise(sem, s) && InPython(sem, Python(s), v)
    ensures Accepts(sem, s, v)
    decreases s, 2
  {
    hide InPython, Python;
    if s.ref.Some? || s.constant.Some? || s.enumeration.Some? {
      ValueKeywordsDecide(sem, s, v);
    } else if s.anyOf.Group? {
      AnyOfIsUnion(sem, s, v);
      var i :| 0 <= i < |s.anyOf.parts| && InPython(sem, Python(s.anyOf.parts[i]), v);
      PythonPrecise(sem, s.anyOf.parts[i], v);
    } else if s.oneOf.Group? {
      OneOfIsUnion(sem, s, v);
      var i :| 0 <= i < |s.oneOf.parts| && InPython(sem, Python(s.oneOf.parts[i]), v);
      PythonPrecise(sem, s.oneOf.parts[i], v);
      OneOfDisjoint(sem, s, i, v);
    } else if !s.typeKeyword.NoType? {
      PythonTypesPrecise(sem, s, v);
    }
  }

  lemma {:induction false} PythonTypesPrecise(sem: Semantics, s: Schema, v: Json)
    requires NoUnion(s) && s.typeKeyword != NoType && Precise(sem, s) && InPython(sem, Python(s), v)
    ensures Accepts(sem, s, v)
    decreases s, 1
  {
    hide Accepts, Precise, InPython, Python;
    var name: TypeName;
    if s.typeKeyword.One? {
      name := s.typeKeyword.name;
    } else {
      TypeListIsUnion(sem, s, v);
      var i :| 0 <= i < |s.typeKeyword.names| && InPython(sem, Python(s.(typeKeyword := One(s.typeKeyword.names[i]))), v);
      name := s.typeKeyword.names[i];
    }
    PythonTypedPrecise(sem, s, name, v);
    TypeRestored(sem, s, v);
  }

  lemma OneOfDisjoint(sem: Semantics, s: Schema, i: nat, v: Json)
    requires NoKeywordBefore(s) && s.anyOf.NoGroup? && Bare(s) && s.oneOf.Group? && Disjoint(sem, s.oneOf.parts)
    requires i < |s.oneOf.parts| && Accepts(sem, s.oneOf.parts[i], v)
    ensures Accepts(sem, s, v)
  {
    assert forall j | 0 <= j < |s.oneOf.parts| && j != i :: !Accepts(sem, s.oneOf.parts[j], v);
  }

  lemma TypeRestored(sem: Semantics, s: Schema, v: Json)
    requires Accepts(sem, s.(typeKeyword := NoType), v) && TypeAllows(s.typeKeyword, v)
    ensures Accepts(sem, s, v)
  {
  }

  /** So on schemas that are well-formed and precise, annotation and schema say the same. */
  lemma {:induction false} PythonExact(sem: Semantics, s: Schema, v: Json)
    requires WellFormed(s) && Precise(sem, s) && sem.assertsFormat
    ensures InPython(sem, Python(s), v) <==> Accepts(sem, s, v)
  {
    if Accepts(sem, s, v) { PythonSound(sem, sem, s, v); }
    if InPython(sem, Python(s), v) { PythonPrecise(sem, s, v); }
  }

  /** A oneOf says "exactly one" and its annotation says "some": for parts that are precise themselves,
      nothing is lost exactly when no value is accepted by two of them. */
  lemma {:induction false} OneOfPreciseExactly(sem: Semantics, s: Schema)
    requires NoKeywordBefore(s) && s.anyOf.NoGroup? && Bare(s) && s.oneOf.Group? && sem.assertsFormat
    requires forall i | 0 <= i < |s.oneOf.parts| :: WellFormed(s.oneOf.parts[i]) && Precise(sem, s.oneOf.parts[i])
    ensures (forall v: Json :: InPython(sem, Python(s), v) ==> Accepts(sem, s, v)) <==> Disjoint(sem, s.oneOf.parts)
  {
    hide InPython, Python, WellFormed, Accepts;
    if Disjoint(sem, s.oneOf.parts) {
      hide Disjoint;
      forall v: Json | InPython(sem, Python(s), v) ensures Accepts(sem, s, v) {
        PythonPrecise(sem, s, v);
      }
    } else {
      var i, j, v :| 0 <= i < j < |s.oneOf.parts| && Accepts(sem, s.oneOf.parts[i], v) && Accepts(sem, s.oneOf.parts[j], v);
      hide Precise;
      OneOfIsUnion(sem, s, v);
      PythonSound(sem, sem, s.oneOf.parts[i], v);
      OneOfRefusesTwo(sem, s, i, j, v);
    }
  }

  lemma OneOfRefusesTwo(sem: Semantics, s: Schema, i: nat, j: nat, v: Json)
    requires s.oneOf.Group? && i < j < |s.oneOf.parts|
    requires Accepts(sem, s.oneOf.parts[i], v) && Accepts(sem, s.oneOf.parts[j], v)
    ensures !Accepts(sem, s, v)
  {
  }

  /** For one type name: the value has the type and meets everything else the schema says. */
  lemma {:induction false} PythonTypedPrecise(sem: Semantics, s: Schema, name: TypeName, v: Json)
    requires Precise(sem, s) && s.typeKeyword != NoType && NoUnion(s)
    requires InPython(sem, Python(s.(typeKeyword := One(name))), v)
    ensures HasType(name, v) && Accepts(sem, s.(typeKeyword := NoType), v)
    decreases s, 0
  {
    hide InPython, Python;
    SingleTypeMeaning(sem, s.(typeKeyword := One(name)), v);
    if name == TArray && s.items.Some? {
      forall i | 0 <= i < |v.items| ensures Accepts(sem, s.items.value, v.items[i]) {
        PythonPrecise(sem, s.items.value, v.items[i]);
      }
    }
    if name == TObject && s.additional.Each? {
      forall k | k in v.members ensures Accepts(sem, s.additional.schema, v.members[k]) {
        PythonPrecise(sem, s.additional.schema, v.members[k]);
      }
    }
  }

  // -----------------------------------------------------------------------------------------
  // The hypotheses are needed

  const ANY := Schema(None, None, None, NoGroup, NoGroup, NoType, None, None, [], Absent)

  ghost predicate SoundForPython(sem: Semantics, s: Schema) {
    forall v: Json :: Accepts(sem, s, v) ==> InPython(sem, Python(s), v)
  }

  /** A formatted string is translated soundly exactly when the format is asserted (or vacuous). */
  lemma FormatsMustBeAsserted(sem: Semantics, format: string)
    requires format in {"date-time", "uri", "uuid"}
    ensures SoundForPython(sem, ANY.(typeKeyword := One(TString), format := Some(format)))
       <==> sem.assertsFormat || forall text: string :: sem.formatHolds(format, text)
  {
    var s := ANY.(typeKeyword := One(TString), format := Some(format));
    var t := Python(s);
    forall v: Json
      ensures InPython(sem, t, v) <==> v.JString? && sem.formatHolds(format, v.s)
      ensures Accepts(sem, s, v) <==> v.JString? && (sem.assertsFormat ==> sem.formatHolds(format, v.s))
    {
      assert InPython(sem, t, v) <==> InPyType(sem, t[0], v);
    }
    if SoundForPython(sem, s) && !sem.assertsFormat {
      forall text: string ensures sem.formatHolds(format, text) {
        assert Accepts(sem, s, JString(text)) && InPython(sem, t, JString(text));
      }
    }
  }

  ghost predicate SoundForTypeScript(sem: Semantics, s: Schema) {
    forall v: Json :: Accepts(sem, s, v) ==> InTypeScript(sem, TypeScript(s), v)
  }

  /** A schema without a type accepts null, and renders as a dict as soon as it says anything about
      additional properties: it is translated soundly exactly when it does not. */
  lemma {:induction false} UntypedSoundExactly(sem: Semantics, s: Schema)
    requires NoUnion(s) && s.typeKeyword.NoType?
    ensures SoundForPython(sem, s) <==> s.additional.Absent?
    ensures SoundForTypeScript(sem, s) <==> s.additional.Absent?
  {
    assert Accepts(sem, s, JNull);
    if s.additional.Absent? {
      assert Python(s) == [PyAny] && TypeScript(s) == [TsUnknown];
      forall v: Json ensures InPython(sem, [PyAny], v) && InTypeScript(sem, [TsUnknown], v) {
        assert InPyType(sem, [PyAny][0], v) && InTsType(sem, [TsUnknown][0], v);
      }
    } else {
      ObjectRendering(s);
      NullIsNoDict(sem, Python(s)[0].value, TypeScript(s)[0].item);
    }
  }

  lemma NullIsNoDict(sem: Semantics, value: seq<PyType>, item: seq<TsType>)
    ensures !InPython(sem, [PyDict(value)], JNull) && !InTypeScript(sem, [TsRecord(item)], JNull)
  {
    var dict, record := [PyDict(value)], [TsRecord(item)];
    assert forall i | 0 <= i < |dict| :: !InPyType(sem, dict[i], JNull);
    assert forall i | 0 <= i < |record| :: !InTsType(sem, record[i], JNull);
  }

  lemma ObjectRendering(s: Schema)
    requires NoUnion(s) && (s.typeKeyword == One(TObject) || (s.typeKeyword.NoType? && !s.additional.Absent?))
    ensures Python(s) == [PyDict(if s.additional.Each? then Python(s.additional.schema) else [PyAny])]
    ensures TypeScript(s) == [TsRecord(if s.additional.Each? then TypeScript(s.additional.schema) else [TsUnknown])]
  {
  }

  /** Some value of a property may be w: every schema declared under its name accepts w. */
  ghost predicate AcceptsDeclared(sem: Semantics, properties: seq<(string, Schema)>, name: string, w: Json) {
    && Declares(properties, name)
    && forall i | 0 <= i < |properties| && properties[i].0 == name :: Accepts(sem, properties[i].1, w)
  }

  lemma DeclaresSplit(properties: seq<(string, Schema)>, name: string)
    requires properties != []
    ensures Declares(properties, name) <==> properties[0].0 == name || Declares(properties[1..], name)
  {
    if i :| 0 <= i < |properties| && properties[i].0 == name {
      if i > 0 { assert properties[1..][i - 1].0 == name; }
    }
    if i :| 0 <= i < |properties[1..]| && properties[1..][i].0 == name {
      assert properties[i + 1].0 == name;
    }
  }

  lemma {:induction false} LongNameFree(properties: seq<(string, Schema)>) returns (length: nat)
    ensures forall name: string :: |name| >= length ==> !Declares(properties, name)
  {
    if properties == [] {
      length := 0;
    } else {
      var rest := LongNameFree(properties[1..]);
      length := if rest > |properties[0].0| then rest else |properties[0].0| + 1;
      forall name: string | |name| >= length ensures !Declares(properties, name) {
        DeclaresSplit(properties, name);
      }
    }
  }

  lemma {:induction false} ObjectAccepts(sem: Semantics, s: Schema, members: map<string, Json>)
    requires NoUnion(s) && s.typeKeyword == One(TObject) && s.additional.Each?
    ensures Accepts(sem, s, JObject(members)) <==>
              forall k :: k in members ==>
                if Declares(s.properties, k) then AcceptsDeclared(sem, s.properties, k, members[k])
                else Accepts(sem, s.additional.schema, members[k])
  {
    forall k | k in members
      ensures (forall i | 0 <= i < |s.properties| && s.properties[i].0 == k :: Accepts(sem, s.properties[i].1, members[k]))
         <==> (Declares(s.properties, k) ==> AcceptsDeclared(sem, s.properties, k, members[k]))
    {
    }
  }

  lemma DictMeaning(sem: Semantics, s: Schema, members: map<string, Json>)
    requires NoUnion(s) && s.typeKeyword == One(TObject) && s.additional.Each?
    ensures InPython(sem, Python(s), JObject(members)) <==>
              forall k :: k in members ==> InPython(sem, Python(s.additional.schema), members[k])
    ensures InTypeScript(sem, TypeScript(s), JObject(members)) <==>
              forall k :: k in members ==> InTypeScript(sem, TypeScript(s.additional.schema), members[k])
  {
    ObjectRendering(s);
    hide Python, TypeScript;
    var dict, record := Python(s), TypeScript(s);
    var v := JObject(members);
    assert InPython(sem, dict, v) <==> InPyType(sem, dict[0], v);
    assert InTypeScript(sem, record, v) <==> InTsType(sem, record[0], v);
  }

  /** A schema-valued additionalProperties renders as a dict of that schema, and declared properties
      escape the schema but not the dict. The object schema is translated soundly exactly when the
      additional schema is, and every value accepted for a declared property inhabits it too. */
  lemma {:induction false} SiblingPropertiesSoundExactly(sem: Semantics, s: Schema)
    requires NoUnion(s) && s.typeKeyword == One(TObject) && s.additional.Each?
    ensures SoundForPython(sem, s) <==>
              && SoundForPython(sem, s.additional.schema)
              && forall k: string, w: Json :: AcceptsDeclared(sem, s.properties, k, w) ==>
                   InPython(sem, Python(s.additional.schema), w)
  {
    hide Accepts, InPython, Python, Declares;
    var each := s.additional.schema;
    if SoundForPython(sem, s) {
      var length := LongNameFree(s.properties);
      var free := seq(length, _ => 'x');
      forall w: Json | Accepts(sem, each, w) ensures InPython(sem, Python(each), w) {
        OneMember(sem, s, free, w);
      }
      forall k: string, w: Json | AcceptsDeclared(sem, s.properties, k, w) ensures InPython(sem, Python(each), w) {
        OneMember(sem, s, k, w);
      }
    } else {
      var v :| Accepts(sem, s, v) && !InPython(sem, Python(s), v);
      AcceptedObject(sem, s, v);
      ObjectAccepts(sem, s, v.members);
      DictMeaning(sem, s, v.members);
    }
  }

  lemma AcceptedObject(sem: Semantics, s: Schema, v: Json)
    requires s.typeKeyword == One(TObject) && Accepts(sem, s, v)
    ensures v.JObject?
  {
  }

  /** An object with one member, seen from the schema and from the types. */
  lemma OneMember(sem: Semantics, s: Schema, k: string, w: Json)
    requires NoUnion(s) && s.typeKeyword == One(TObject) && s.additional.Each?
    requires if Declares(s.properties, k) then AcceptsDeclared(sem, s.properties, k, w) else Accepts(sem, s.additional.schema, w)
    ensures SoundForPython(sem, s) ==> InPython(sem, Python(s.additional.schema), w)
    ensures SoundForTypeScript(sem, s) ==> InTypeScript(sem, TypeScript(s.additional.schema), w)
  {
    hide Accepts, InPython, InTypeScript, Python, TypeScript, Declares, AcceptsDeclared;
    var members := map[k := w];
    ObjectAccepts(sem, s, members);
    DictMeaning(sem, s, members);
    assert Accepts(sem, s, JObject(members));
    assert k in members && members[k] == w;
  }

  /** The same condition for TypeScript's record. */
  lemma {:induction false} SiblingPropertiesSoundExactlyTypeScript(sem: Semantics, s: Schema)
    requires NoUnion(s) && s.typeKeyword == One(TObject) && s.additional.Each?
    ensures SoundForTypeScript(sem, s) <==>
              && SoundForTypeScript(sem, s.additional.schema)
              && forall k: string, w: Json :: AcceptsDeclared(sem, s.properties, k, w) ==>
                   InTypeScript(sem, TypeScript(s.additional.schema), w)
  {
    hide Accepts, InTypeScript, TypeScript, Declares;
    var each := s.additional.schema;
    if SoundForTypeScript(sem, s) {
      var length := LongNameFree(s.properties);
      var free := seq(length, _ => 'x');
      forall w: Json | Accepts(sem, each, w) ensures InTypeScript(sem, TypeScript(each), w) {
        OneMember(sem, s, free, w);
      }
      forall k: string, w: Json | AcceptsDeclared(sem, s.properties, k, w) ensures InTypeScript(sem, TypeScript(each), w) {
        OneMember(sem, s, k, w);
      }
    } else {
      var v :| Accepts(sem, s, v) && !InTypeScript(sem, TypeScript(s), v);
      AcceptedObject(sem, s, v);
      ObjectAccepts(sem, s, v.members);
      DictMeaning(sem, s, v.members);
    }
  }

  /** An input on which that condition fails: a null property beside integer additional ones. */
  lemma SiblingPropertiesAreUnsound(sem: Semantics)
    ensures var s := ANY.(typeKeyword := One(TObject), properties := [("name", ANY)],
                          additional := Each(ANY.(typeKeyword := One(TInteger))));
            var v := JObject(map["name" := JNull]);
            Accepts(sem, s, v) && !InPython(sem, Python(s), v) && !InTypeScript(sem, TypeScript(s), v)
  {
    var each := ANY.(typeKeyword := One(TInteger));
    var s := ANY.(typeKeyword := One(TObject), properties := [("name", ANY)], additional := Each(each));
    var v := JObject(map["name" := JNull]);
    assert s.properties[0].0 == "name";
    assert Declares(s.properties, "name");
    assert Python(each) == [PyInt] && TypeScript(each) == [TsNumber];
    assert !InPython(sem, [PyInt], v.members["name"]);
    assert !InTypeScript(sem, [TsNumber], v.members["name"]);
    assert Python(s) == [PyDict([PyInt])] && TypeScript(s) == [TsRecord([TsNumber])];
  }

  // -----------------------------------------------------------------------------------------
  // Erasure: TypeScript types are the Python ones with formats and integrality forgotten

  datatype Shape =
    | SRef(name: string)
    | SLiteral(value: Json)
    | SNull | SString | SNumber | SBoolean | SUnknown
    | SArray(element: set<Shape>)
    | SRecord(value_: set<Shape>)

  /** The alternatives of a Python annotation under erasure. */
  ghost function ErasedPython(alternatives: seq<PyType>): (r: set<Shape>)
    decreases alternatives
  {
    set i, x | 0 <= i < |alternatives| && x in ErasedPyType(alternatives[i]) :: x
  }

  ghost function ErasedPyType(t: PyType): (r: set<Shape>)
    decreases t
  {
    match t
    case PyRef(name) => {SRef(name)}
    case PyLiteral(values) => set v | v in values :: SLiteral(v)
    case PyNone => {SNull}
    case PyDatetime => {SString}
    case PyAnyUrl => {SString}
    case PyUuid => {SString}
    case PyStr => {SString}
    case PyInt => {SNumber}
    case PyFloat => {SNumber}
    case PyBool => {SBoolean}
    case PyAny => {SUnknown}
    case PyList(e) => {SArray(ErasedPython(e))}
    case PyDict(e) => {SRecord(ErasedPython(e))}
  }

  /** The alternatives of a TypeScript type. */
  ghost function ShapesTypeScript(alternatives: seq<TsType>): (r: set<Shape>)
    decreases alternatives
  {
    set i | 0 <= i < |alternatives| :: ShapeTsType(alternatives[i])
  }

  ghost function ShapeTsType(t: TsType): (r: Shape)
    decreases t
  {
    match t
    case TsRef(name) => SRef(name)
    case TsLiteral(value) => SLiteral(value)
    case TsNull => SNull
    case TsString => SString
    case TsNumber => SNumber
    case TsBoolean => SBoolean
    case TsUnknown => SUnknown
    case TsArray(e) => SArray(ShapesTypeScript(e))
    case TsRecord(e) => SRecord(ShapesTypeScript(e))
  }

  lemma SingletonErasure(p: PyType, t: TsType)
    ensures ErasedPython([p]) == ErasedPyType(p)
    ensures ShapesTypeScript([t]) == {ShapeTsType(t)}
  {
    assert [p][0] == p && [t][0] == t;
  }

  /** Unions of pairwise corresponding parts correspond, whatever each side deduplicated. */
  lemma {:induction false} UnionErasure(ps: seq<seq<PyType>>, ts: seq<seq<TsType>>)
    requires |ps| == |ts|
    requires forall i :: 0 <= i < |ps| ==> ErasedPython(ps[i]) == ShapesTypeScript(ts[i])
    ensures ErasedPython(Flatten(Dedup(ps))) == ShapesTypeScript(Flatten(Dedup(ts)))
  {
    var p, t := Flatten(Dedup(ps)), Flatten(Dedup(ts));
    forall x ensures x in ErasedPython(p) <==> x in ShapesTypeScript(t) {
      if x in ErasedPython(p) {
        var i :| 0 <= i < |p| && x in ErasedPyType(p[i]);
        UnionMembers(ps, p[i]);
        var j :| 0 <= j < |ps| && p[i] in ps[j];
        assert x in ErasedPython(ps[j]);
        var b :| 0 <= b < |ts[j]| && ShapeTsType(ts[j][b]) == x;
        UnionMembers(ts, ts[j][b]);
      }
      if x in ShapesTypeScript(t) {
        var i :| 0 <= i < |t| && ShapeTsType(t[i]) == x;
        UnionMembers(ts, t[i]);
        var j :| 0 <= j < |ts| && t[i] in ts[j];
        assert x in ShapesTypeScript(ts[j]);
        var b :| 0 <= b < |ps[j]| && x in ErasedPyType(ps[j][b]);
        UnionMembers(ps, ps[j][b]);
      }
    }
  }

  /** For every schema, the alternatives on the TypeScript side are exactly the erased Python ones. */
  lemma {:induction false} ErasureExact(s: Schema)
    ensures ErasedPython(Python(s)) == ShapesTypeScript(TypeScript(s))
    decreases s, 1
  {
    var p, t := Python(s), TypeScript(s);
    if s.ref.Some? || s.constant.Some? {
      SingletonErasure(p[0], t[0]);
    } else if s.enumeration.Some? {
      var vs := s.enumeration.value;
      assert ErasedPython(p) == ErasedPyType(p[0]) == set v | v in vs :: SLiteral(v);
      assert forall i :: 0 <= i < |vs| ==> ShapeTsType(t[i]) == SLiteral(vs[i]);
    } else if s.anyOf.Group? {
      PartsErasure(s.anyOf.parts);
    } else if UnionOfOneOf(s) {
      PartsErasure(s.oneOf.parts);
    } else {
      match s.typeKeyword
      case Many(names) =>
        var ps := seq(|names|, i requires 0 <= i < |names| => PythonTyped(s, names[i]));
        var ts := seq(|names|, i requires 0 <= i < |names| => TypeScriptTyped(s, names[i]));
        forall i | 0 <= i < |names| ensures ErasedPython(ps[i]) == ShapesTypeScript(ts[i]) {
          TypedErasure(s, names[i]);
        }
        UnionErasure(ps, ts);
      case One(name) => TypedErasure(s, name);
      case NoType =>
        TypedErasure(s, TObject);
        SingletonErasure(PyAny, TsUnknown);
    }
  }

  lemma {:induction false} PartsErasure(ss: seq<Schema>)
    ensures ErasedPython(Flatten(Dedup(PythonParts(ss)))) == ShapesTypeScript(Flatten(Dedup(TypeScriptParts(ss))))
    decreases ss, 0
  {
    forall i | 0 <= i < |ss| ensures ErasedPython(Python(ss[i])) == ShapesTypeScript(TypeScript(ss[i])) {
      ErasureExact(ss[i]);
    }
    UnionErasure(PythonParts(ss), TypeScriptParts(ss));
  }

  lemma {:induction false} TypedErasure(s: Schema, name: TypeName)
    ensures ErasedPython(PythonTyped(s, name)) == ShapesTypeScript(TypeScriptTyped(s, name))
    decreases s, 0
  {
    if name == TArray && s.items.Some? {
      ErasureExact(s.items.value);
    }
    if name == TObject && s.additional.Each? {
      ErasureExact(s.additional.schema);
    }
    SingletonErasure(PyAny, TsUnknown);
    SingletonErasure(PythonTyped(s, name)[0], TypeScriptTyped(s, name)[0]);
  }
}
