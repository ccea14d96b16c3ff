/** The classes and interfaces generated for object components, and what they admit compared with the
    schema; then every component at once, through any references. */
module GeneratedClasses {
  import opened SqlLogic
  import opened JsonValues
  import opened SchemaCompiler

  /** An object component without allOf: its schema, and what is said beside the schema. */
  datatype ObjectComponent = ObjectComponent(
    schema: Schema,
    required: set<string>,
    defaults: set<string>,       // the properties that state a default
    internal: set<string>,       // x-internal: not rendered for TypeScript
    ignoresExtra: bool)          // x-model-extra: ignore

  /** The renderer's test for "None" in the text of an annotation. */
  type NoneTest = seq<PyType> -> bool

  /** `properties` is a dict, and nothing but the object keywords decides the rendering. */
  predicate IsClass(c: ObjectComponent) {
    && NoUnion(c.schema)
    && (c.schema.typeKeyword == One(TObject) || (c.schema.typeKeyword.NoType? && c.schema.properties != []))
    && forall i, j | 0 <= i < j < |c.schema.properties| :: c.schema.properties[i].0 != c.schema.properties[j].0
  }

  ghost predicate AcceptsComponent(sem: Semantics, c: ObjectComponent, v: Json) {
    Accepts(sem, c.schema, v) && (v.JObject? ==> forall k | k in c.required :: k in v.members)
  }

  // -----------------------------------------------------------------------------------------
  // The Python class

  /** The base is StrictModel, which forbids undeclared members. */
  predicate Strict(c: ObjectComponent) {
    !c.ignoresExtra && c.schema.additional != Open
  }

  /** A field the renderer makes nullable: optional, without default, and not None already. */
  predicate MadeNullable(c: ObjectComponent, none: NoneTest, i: nat)
    requires i < |c.schema.properties|
  {
    var (name, field) := c.schema.properties[i];
    name !in c.required && name !in c.defaults && !none(Python(field))
  }

  function FieldType(c: ObjectComponent, none: NoneTest, i: nat): (r: seq<PyType>)
    requires i < |c.schema.properties|
  {
    Python(c.schema.properties[i].1) + if MadeNullable(c, none, i) then [PyNone] else []
  }

  /** An absent member is taken from the default: every optional field has one, and of the required
      ones those that are constant. */
  ghost predicate InClass(sem: Semantics, c: ObjectComponent, none: NoneTest, v: Json) {
    && v.JObject?
    && (forall i | 0 <= i < |c.schema.properties| ::
          var (name, field) := c.schema.properties[i];
          if name in v.members then InPython(sem, FieldType(c, none, i), v.members[name])
          else name in c.required ==> field.constant.Some?)
    && (Strict(c) ==> forall k | k in v.members :: Declares(c.schema.properties, k))
  }

  ghost predicate SoundClass(schemas: Semantics, types: Semantics, c: ObjectComponent, none: NoneTest) {
    forall v: Json :: AcceptsComponent(schemas, c, v) ==> InClass(types, c, none, v)
  }

  /** No object the schema accepts has an undeclared member. */
  ghost predicate RefusesExtras(sem: Semantics, c: ObjectComponent) {
    || c.schema.additional == Closed
    || (c.schema.additional.Each? && forall w: Json :: !Accepts(sem, c.schema.additional.schema, w))
    || forall members: map<string, Json> :: !AcceptsComponent(sem, c, JObject(members))
  }

  ghost predicate SoundAnnotation(schemas: Semantics, types: Semantics, s: Schema) {
    forall v: Json :: Accepts(schemas, s, v) ==> InPython(types, Python(s), v)
  }

  ghost predicate FieldsSound(schemas: Semantics, types: Semantics, c: ObjectComponent) {
    forall i | 0 <= i < |c.schema.properties| :: SoundAnnotation(schemas, types, c.schema.properties[i].1)
  }

  lemma FieldTypeWidens(sem: Semantics, c: ObjectComponent, none: NoneTest, i: nat, v: Json)
    requires i < |c.schema.properties|
    ensures InPython(sem, FieldType(c, none, i), v)
       <==> InPython(sem, Python(c.schema.properties[i].1), v) || (MadeNullable(c, none, i) && v.JNull?)
  {
    hide Python;
    var t := Python(c.schema.properties[i].1);
    var f := FieldType(c, none, i);
    if a :| 0 <= a < |t| && InPyType(sem, t[a], v) { assert f[a] == t[a]; }
    if a :| 0 <= a < |f| && InPyType(sem, f[a], v) {
      if a < |t| { assert t[a] == f[a]; }
    }
    if MadeNullable(c, none, i) && v.JNull? { assert InPyType(sem, f[|t|], v); }
  }

  /** What a component says of an object, member by member. */
  lemma {:induction false} ComponentMeaning(sem: Semantics, c: ObjectComponent, members: map<string, Json>)
    requires IsClass(c)
    ensures AcceptsComponent(sem, c, JObject(members)) <==>
              && (forall k | k in c.required :: k in members)
              && (forall i | 0 <= i < |c.schema.properties| && c.schema.properties[i].0 in members ::
                    Accepts(sem, c.schema.properties[i].1, members[c.schema.properties[i].0]))
              && (forall k | k in members && !Declares(c.schema.properties, k) ::
                    c.schema.additional != Closed
                    && (c.schema.additional.Each? ==> Accepts(sem, c.schema.additional.schema, members[k])))
  {
  }

  /** One more member, under a name that is not declared. */
  lemma ExtraAccepted(sem: Semantics, c: ObjectComponent, members: map<string, Json>, k: string, w: Json)
    requires IsClass(c) && AcceptsComponent(sem, c, JObject(members)) && !Declares(c.schema.properties, k)
    requires c.schema.additional != Closed && (c.schema.additional.Each? ==> Accepts(sem, c.schema.additional.schema, w))
    ensures AcceptsComponent(sem, c, JObject(members[k := w]))
  {
    hide Accepts, AcceptsComponent;
    ComponentMeaning(sem, c, members);
    ComponentMeaning(sem, c, members[k := w]);
    assert forall i | 0 <= i < |c.schema.properties| :: c.schema.properties[i].0 != k;
  }

  /** Accepted values are admitted when the component is an object type and the class does not
      forbid members that the schema allows. */
  lemma {:induction false} ClassAdmits(schemas: Semantics, types: Semantics, c: ObjectComponent, none: NoneTest, v: Json)
    requires IsClass(c) && FieldsSound(schemas, types, c) && c.schema.typeKeyword == One(TObject)
    requires Strict(c) ==> RefusesExtras(schemas, c)
    requires AcceptsComponent(schemas, c, v)
    ensures InClass(types, c, none, v)
  {
    assert v.JObject?;
    ComponentMeaning(schemas, c, v.members);
    hide Accepts, InPython, Python, FieldType;
    forall i | 0 <= i < |c.schema.properties| && c.schema.properties[i].0 in v.members
      ensures InPython(types, FieldType(c, none, i), v.members[c.schema.properties[i].0])
    {
      FieldTypeWidens(types, c, none, i, v.members[c.schema.properties[i].0]);
      assert SoundAnnotation(schemas, types, c.schema.properties[i].1);
    }
  }

  /** With sound field annotations, the class admits every value its component accepts exactly when
      the component is an object type, and its class is not a strict one standing for a schema that
      accepts undeclared members. */
  lemma {:induction false} ClassSoundExactly(schemas: Semantics, types: Semantics, c: ObjectComponent, none: NoneTest)
    requires IsClass(c) && FieldsSound(schemas, types, c)
    ensures SoundClass(schemas, types, c, none) <==>
              c.schema.typeKeyword == One(TObject) && (c.ignoresExtra || c.schema.additional == Open || RefusesExtras(schemas, c))
  {
    hide Accepts, AcceptsComponent, InClass, RefusesExtras, FieldsSound;
    if c.schema.typeKeyword == One(TObject) && (Strict(c) ==> RefusesExtras(schemas, c)) {
      forall v: Json | AcceptsComponent(schemas, c, v) ensures InClass(types, c, none, v) {
        ClassAdmits(schemas, types, c, none, v);
      }
    } else if c.schema.typeKeyword != One(TObject) {
      UntypedAcceptsNull(schemas, types, c, none);
    } else {
      var v := ForbiddenExtra(schemas, types, c, none);
    }
  }

  lemma UntypedAcceptsNull(schemas: Semantics, types: Semantics, c: ObjectComponent, none: NoneTest)
    requires IsClass(c) && c.schema.typeKeyword != One(TObject)
    ensures AcceptsComponent(schemas, c, JNull) && !InClass(types, c, none, JNull)
  {
  }

  lemma {:induction false} ForbiddenExtra(schemas: Semantics, types: Semantics, c: ObjectComponent, none: NoneTest)
    returns (v: Json)
    requires IsClass(c) && Strict(c) && !RefusesExtras(schemas, c)
    ensures AcceptsComponent(schemas, c, v) && !InClass(types, c, none, v)
  {
    hide Accepts, AcceptsComponent;
    var members: map<string, Json> :| AcceptsComponent(schemas, c, JObject(members));
    var length := LongNameFree(c.schema.properties);
    var free := seq(length, _ => 'x');
    var w := JNull;
    if c.schema.additional.Each? {
      w :| Accepts(schemas, c.schema.additional.schema, w);
    }
    ExtraAccepted(schemas, c, members, free, w);
    v := JObject(members[free := w]);
    assert free in v.members && !Declares(c.schema.properties, free);
  }

  /** What a class says of an object: declared members have their field's type, or are null where the
      field is optional, has no default and is not None already; what is missing is optional or
      constant; and only ExtensibleModel and IgnoredExtraModel tolerate undeclared members. */
  lemma {:induction false} ClassMeaning(sem: Semantics, c: ObjectComponent, none: NoneTest, members: map<string, Json>)
    requires IsClass(c)
    ensures InClass(sem, c, none, JObject(members)) <==>
              && (forall i | 0 <= i < |c.schema.properties| ::
                    var (name, field) := c.schema.properties[i];
                    if name !in members then name !in c.required || field.constant.Some?
                    else || InPython(sem, Python(field), members[name])
                         || (members[name] == JNull && name !in c.required + c.defaults && !none(Python(field))))
              && (c.ignoresExtra || c.schema.additional == Open || forall k | k in members :: Declares(c.schema.properties, k))
  {
    hide InPython, Python, FieldType;
    forall i | 0 <= i < |c.schema.properties| && c.schema.properties[i].0 in members
      ensures InPython(sem, FieldType(c, none, i), members[c.schema.properties[i].0])
         <==> || InPython(sem, Python(c.schema.properties[i].1), members[c.schema.properties[i].0])
              || (MadeNullable(c, none, i) && members[c.schema.properties[i].0].JNull?)
    {
      FieldTypeWidens(sem, c, none, i, members[c.schema.properties[i].0]);
    }
  }

  /** The other direction, where fields are precise and extras are treated alike: what the class
      admits beyond the schema is a missing constant and a null for a field that is optional, has no
      default and is not None already. */
  lemma {:induction false} ClassPrecise(sem: Semantics, c: ObjectComponent, none: NoneTest, v: Json)
    requires IsClass(c) && FieldsSound(sem, sem, c) && c.schema.typeKeyword == One(TObject)
    requires (c.schema.additional == Closed && !c.ignoresExtra) || c.schema.additional == Open
    requires forall i | 0 <= i < |c.schema.properties| :: Precise(sem, c.schema.properties[i].1)
    ensures AcceptsComponent(sem, c, v) <==>
              && InClass(sem, c, none, v) && (forall k | k in c.required :: k in v.members)
              && forall i | 0 <= i < |c.schema.properties| ::
                   var (name, field) := c.schema.properties[i];
                   name in v.members && v.members[name].JNull? && name !in c.required + c.defaults && !none(Python(field)) ==>
                     Accepts(sem, field, JNull)
  {
    if v.JObject? {
      ComponentMeaning(sem, c, v.members);
      hide Accepts, InPython, Python, Precise, FieldType, AcceptsComponent;
      if AcceptsComponent(sem, c, v) { ClassAdmits(sem, sem, c, none, v); }
      forall i | 0 <= i < |c.schema.properties| && c.schema.properties[i].0 in v.members
        ensures InPython(sem, FieldType(c, none, i), v.members[c.schema.properties[i].0])
           <==> || Accepts(sem, c.schema.properties[i].1, v.members[c.schema.properties[i].0])
                || (MadeNullable(c, none, i) && v.members[c.schema.properties[i].0].JNull?)
      {
        var (name, field) := c.schema.properties[i];
        FieldTypeWidens(sem, c, none, i, v.members[name]);
        assert SoundAnnotation(sem, sem, field);
        if InPython(sem, Python(field), v.members[name]) { PythonPrecise(sem, field, v.members[name]); }
      }
    }
  }

  // -----------------------------------------------------------------------------------------
  // The TypeScript interface

  /** Interfaces are open: members that are not declared are never refused. */
  ghost predicate InInterface(sem: Semantics, c: ObjectComponent, v: Json) {
    && v.JObject?
    && forall i | 0 <= i < |c.schema.properties| && c.schema.properties[i].0 !in c.internal ::
         var (name, field) := c.schema.properties[i];
         if name in v.members then InTypeScript(sem, TypeScript(field), v.members[name]) else name !in c.required
  }

  /** An interface says of an object only that the members it renders have their type and that the
      required ones are there. */
  lemma InterfaceMeaning(sem: Semantics, c: ObjectComponent, v: Json)
    ensures InInterface(sem, c, v) <==>
              && v.JObject?
              && (forall i | 0 <= i < |c.schema.properties| && c.schema.properties[i].0 in c.required - c.internal ::
                    c.schema.properties[i].0 in v.members)
              && (forall i | 0 <= i < |c.schema.properties| && c.schema.properties[i].0 in v.members.Keys - c.internal ::
                    InTypeScript(sem, TypeScript(c.schema.properties[i].1), v.members[c.schema.properties[i].0]))
  {
    hide InTypeScript, TypeScript;
  }

  lemma {:induction false} InterfaceAdmits(schemas: Semantics, types: Semantics, c: ObjectComponent, v: Json)
    requires IsClass(c) && c.schema.typeKeyword == One(TObject) && AcceptsComponent(schemas, c, v)
    requires forall i, w: Json | 0 <= i < |c.schema.properties| && Accepts(schemas, c.schema.properties[i].1, w) ::
               InTypeScript(types, TypeScript(c.schema.properties[i].1), w)
    ensures InInterface(types, c, v)
  {
    assert v.JObject?;
    ComponentMeaning(schemas, c, v.members);
    hide Accepts, InTypeScript, TypeScript;
  }

  // -----------------------------------------------------------------------------------------
  // All components together

  datatype Component = Alias(schema: Schema) | Class(component: ObjectComponent)

  /** What the schema of a component and its rendering have to agree on: a class stands for an object
      type, and forbids members only where the schema does. */
  predicate Faithful(c: Component) {
    match c
    case Alias(s) => WellFormed(s)
    case Class(o) =>
      && IsClass(o) && o.schema.typeKeyword == One(TObject)
      && (Strict(o) ==> o.schema.additional == Closed)
      && forall i | 0 <= i < |o.schema.properties| :: WellFormed(o.schema.properties[i].1)
  }

  ghost predicate AcceptsAny(sem: Semantics, c: Component, v: Json) {
    if c.Alias? then Accepts(sem, c.schema, v) else AcceptsComponent(sem, c.component, v)
  }

  ghost predicate InPythonComponent(sem: Semantics, c: Component, none: NoneTest, v: Json) {
    if c.Alias? then InPython(sem, Python(c.schema), v) else InClass(sem, c.component, none, v)
  }

  ghost predicate InTypeScriptComponent(sem: Semantics, c: Component, v: Json) {
    if c.Alias? then InTypeScript(sem, TypeScript(c.schema), v) else InInterface(sem, c.component, v)
  }

  /** `k` unfoldings of the component names; the names outside `env` mean what `base` says. */
  ghost function AcceptsNamed(env: map<string, Component>, base: Semantics, k: nat): (r: (string, Json) -> bool)
    decreases k
  {
    (n: string, v: Json) =>
      if n !in env then base.named(n, v)
      else k > 0 && AcceptsAny(base.(named := AcceptsNamed(env, base, k - 1)), env[n], v)
  }

  ghost function InNamedPython(env: map<string, Component>, base: Semantics, none: NoneTest, k: nat)
    : (r: (string, Json) -> bool)
    decreases k
  {
    (n: string, v: Json) =>
      if n !in env then base.named(n, v)
      else k > 0 && InPythonComponent(base.(named := InNamedPython(env, base, none, k - 1)), env[n], none, v)
  }

  ghost function InNamedTypeScript(env: map<string, Component>, base: Semantics, k: nat): (r: (string, Json) -> bool)
    decreases k
  {
    (n: string, v: Json) =>
      if n !in env then base.named(n, v)
      else k > 0 && InTypeScriptComponent(base.(named := InNamedTypeScript(env, base, k - 1)), env[n], v)
  }

  /** One component, with the names it refers to already known to be sound. */
  lemma {:induction false} ComponentSound(schemas: Semantics, python: Semantics, typescript: Semantics,
                                          c: Component, none: NoneTest, v: Json)
    requires Faithful(c) && schemas.assertsFormat && Widens(python, schemas) && Widens(typescript, schemas)
    requires AcceptsAny(schemas, c, v)
    ensures InPythonComponent(python, c, none, v) && InTypeScriptComponent(typescript, c, v)
  {
    hide Accepts, InPython, InTypeScript, Python, TypeScript, AcceptsComponent, InClass, InInterface, Widens;
    match c
    case Alias(s) =>
      PythonSound(schemas, python, s, v);
      TypeScriptSound(schemas, typescript, s, v);
    case Class(o) =>
      forall i, w: Json | 0 <= i < |o.schema.properties| && Accepts(schemas, o.schema.properties[i].1, w)
        ensures InPython(python, Python(o.schema.properties[i].1), w)
        ensures InTypeScript(typescript, TypeScript(o.schema.properties[i].1), w)
      {
        PythonSound(schemas, python, o.schema.properties[i].1, w);
        TypeScriptSound(schemas, typescript, o.schema.properties[i].1, w);
      }
      ClassAdmits(schemas, python, o, none, v);
      InterfaceAdmits(schemas, typescript, o, v);
  }

  /** Soundness of the whole contract: a value that a component accepts is admitted by what is
      generated for it, through any number of references among aliases and classes, recursive ones
      included. */
  lemma {:induction false} ComponentsSound(env: map<string, Component>, base: Semantics, none: NoneTest,
                                           k: nat, n: string, v: Json)
    requires forall m :: m in env ==> Faithful(env[m])
    requires base.assertsFormat && AcceptsNamed(env, base, k)(n, v)
    ensures InNamedPython(env, base, none, k)(n, v) && InNamedTypeScript(env, base, k)(n, v)
    decreases k
  {
    if n in env {
      hide Faithful, AcceptsAny, InPythonComponent, InTypeScriptComponent;
      var schemas := base.(named := AcceptsNamed(env, base, k - 1));
      var python := base.(named := InNamedPython(env, base, none, k - 1));
      var typescript := base.(named := InNamedTypeScript(env, base, k - 1));
      forall m: string, w: Json | schemas.named(m, w)
        ensures python.named(m, w) && typescript.named(m, w)
      {
        ComponentsSound(env, base, none, k - 1, m, w);
      }
      ComponentSound(schemas, python, typescript, env[n], none, v);
    }
  }
}
