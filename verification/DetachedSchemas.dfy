/** What a property schema stands for once it is taken out of its object, and when that is what it stood
    for in place. */
module DetachedSchemas {
  import opened JsonValues
  import opened Canonical
  import opened StrictContracts
  import opened ContractBuilder

  /** A schema that mentions no definitions does not care about its root. */
  lemma {:induction false} RootDoesNotMatter(config: Config, schema: Json, root: Json, other: Json, refs: set<RefKey>)
    requires !MentionsDefinitions(schema)
    ensures Canon(config, schema, root, refs) == Canon(config, schema, other, refs)
    decreases schema, 1
  {
    PartsIgnoreRoot(config, schema, root, other, refs);
    if schema.Obj? && Reference(schema).Some? {
      assert Resolve(config, Reference(schema).value, root) == Resolve(config, Reference(schema).value, other);
    }
    CanonCongruence(config, schema, root, refs, schema, other, refs);
  }

  lemma {:induction false} PartsIgnoreRoot(config: Config, schema: Json, root: Json, other: Json, refs: set<RefKey>)
    requires !MentionsDefinitions(schema)
    ensures schema.Obj? ==> Members(config, schema, root, refs) == Members(config, schema, other, refs)
    ensures schema.Arr? ==> Items(config, schema, root, refs) == Items(config, schema, other, refs)
    decreases schema, 0
  {
    if schema.Obj? {
      forall k | k in schema.fields && Visited(schema, k)
        ensures Canon(config, schema.fields[k], root, refs) == Canon(config, schema.fields[k], other, refs)
      {
        RootDoesNotMatter(config, schema.fields[k], root, other, refs);
      }
    } else if schema.Arr? {
      forall i | 0 <= i < |schema.items|
        ensures Canon(config, schema.items[i], root, refs) == Canon(config, schema.items[i], other, refs)
      {
        RootDoesNotMatter(config, schema.items[i], root, other, refs);
      }
    }
  }

  // ---------------------------------------------------------------- what detaching yields

  /** A property in its place: under the root of the type it belongs to. */
  function InPlace(config: Config, root: Object, property: Json): Result<Json> { Canon(config, property, Obj(root), {}) }

  /** The property takes the root's definitions along. */
  predicate TakesDefinitions(root: Object, property: Json) {
    MentionsDefinitions(property) && "$defs" in root && property.Obj?
  }

  function WithoutDefinitions(property: Json): Json
    requires property.Obj?
  {
    Obj(property.fields - {"$defs"})
  }

  /** Definitions kept beside a reference become part of the result, and must have a canonical form. */
  function Beside(here: Result<Json>, definitions: Result<Json>): Result<Json> {
    if here.Ok? && here.value.Obj? && definitions.Ok? then Ok(Obj(here.value.fields["$defs" := definitions.value])) else Err
  }

  /** What a detached property stands for, in terms of the schema it comes from. */
  function DetachedForm(config: Config, root: Object, property: Json): Result<Json> {
    if !TakesDefinitions(root, property) then
      if MentionsDefinitions(property) then CanonicalSchema(config, property) else InPlace(config, root, property)
    else if Reference(property).None? then InPlace(config, root, WithoutDefinitions(property))
    else Beside(InPlace(config, root, WithoutDefinitions(property)), InPlace(config, root, root["$defs"]))
  }

  lemma TakenDefinitions(config: Config, root: Object, property: Json)
    requires TakesDefinitions(root, property)
    ensures CanonicalSchema(config, Detached(root, property)) == Canon(config, Detached(root, property), Obj(root), {})
  {
    var detached := Detached(root, property);
    assert Definitions(detached) == Definitions(Obj(root));
    CanonUsesOnlyDefinitions(config, detached, detached, Obj(root), {});
  }

  /** Detaching yields exactly that, for every property of every type. */
  lemma DetachedIs(config: Config, root: Object, property: Json)
    ensures CanonicalSchema(config, Detached(root, property)) == DetachedForm(config, root, property)
  {
    if !MentionsDefinitions(property) {
      RootDoesNotMatter(config, property, property, Obj(root), {});
    } else if TakesDefinitions(root, property) {
      TakenDefinitions(config, root, property);
      if Reference(property).None? {
        OnlyVisitedMembersMatter(config, Detached(root, property), WithoutDefinitions(property), Obj(root), {});
      } else {
        var detached := Detached(root, property);
        assert Reference(detached) == Reference(property) && WithoutDefinitions(detached) == WithoutDefinitions(property);
        ReferenceWithDefinitionsIs(config, Obj(root), detached);
      }
    }
  }

  /** A reference with definitions beside it: its form without them, and theirs. */
  lemma ReferenceWithDefinitionsIs(config: Config, root: Json, schema: Json)
    requires schema.Obj? && Reference(schema).Some? && "$defs" in schema.fields
    ensures Canon(config, schema, root, {})
            == Beside(Canon(config, WithoutDefinitions(schema), root, {}), Canon(config, schema.fields["$defs"], root, {}))
  {
    var bare := WithoutDefinitions(schema);
    assert Reference(bare) == Reference(schema);
    CanonUnfolds(config, schema, root, {});
    CanonUnfolds(config, bare, root, {});
    MembersWithDefinitions(config, schema, bare, root);
    JoinWithDefinitions(Followed(config, Reference(schema).value, root, {}), Members(config, bare, root, {}), Canon(config, schema.fields["$defs"], root, {}));
  }

  lemma MembersWithDefinitions(config: Config, detached: Json, bare: Json, root: Json)
    requires detached.Obj? && "$defs" in detached.fields && bare == Obj(detached.fields - {"$defs"}) && Reference(detached).Some?
    ensures Reference(bare).Some?
    ensures Members(config, detached, root, {}) == Members(config, bare, root, {})["$defs" := Canon(config, detached.fields["$defs"], root, {})]
  {
    var plain, more := Members(config, bare, root, {}), Members(config, detached, root, {});
    assert Reference(bare) == Reference(detached);
    forall k ensures k in more <==> k in plain || k == "$defs" {
      assert Visited(detached, k) <==> Visited(bare, k) || k == "$defs";
    }
  }

  lemma JoinWithDefinitions(base: Result<Json>, plain: map<string, Result<Json>>, definitions: Result<Json>)
    requires "$defs" !in plain
    ensures JoinReference(base, plain["$defs" := definitions]) == Beside(JoinReference(base, plain), definitions)
  {
    var more := plain["$defs" := definitions];
    assert AllOk(more) <==> AllOk(plain) && definitions.Ok? by {
      assert forall k :: k in more <==> k in plain || k == "$defs";
      assert more["$defs"] == definitions;
      assert forall k :: k in plain ==> more[k] == plain[k];
    }
    if base.Ok? && base.value.Obj? && AllOk(more) {
      assert base.value.fields + Values(more) == (base.value.fields + Values(plain))["$defs" := definitions.value];
    }
  }

  // ---------------------------------------------------------------- when detaching keeps the meaning

  ghost predicate SubMap(a: map<string, Json>, b: map<string, Json>) { forall n :: n in a ==> n in b && b[n] == a[n] }

  /** What canonicalises with some definitions has the same form with more. */
  lemma {:induction false} MoreDefinitions(config: Config, schema: Json, root: Json, other: Json, refs: set<RefKey>)
    requires SubMap(Definitions(root), Definitions(other)) && Canon(config, schema, root, refs).Ok?
    ensures Canon(config, schema, other, refs) == Canon(config, schema, root, refs)
    decreases Fresh(config, root, refs), schema, 1
  {
    CanonNeedsParts(config, schema, root, refs);
    PartsWithMoreDefinitions(config, schema, root, other, refs);
    if schema.Obj? && Reference(schema).Some? {
      TargetWithMoreDefinitions(config, schema, root, other, refs);
    }
    CanonCongruence(config, schema, other, refs, schema, root, refs);
  }

  lemma {:induction false} TargetWithMoreDefinitions(config: Config, schema: Json, root: Json, other: Json, refs: set<RefKey>)
    requires SubMap(Definitions(root), Definitions(other)) && schema.Obj? && Reference(schema).Some?
    requires Followed(config, Reference(schema).value, root, refs).Ok?
    ensures Followed(config, Reference(schema).value, other, refs) == Followed(config, Reference(schema).value, root, refs)
    decreases Fresh(config, root, refs), schema, 0
  {
    var reference := Reference(schema).value;
    var t, u := Resolve(config, reference, root), Resolve(config, reference, other);
    assert u.Some? && u.value.schema == t.value.schema && u.value.key == t.value.key;
    ResolveDescends(config, reference, root, refs);
    if LOCAL_PREFIX <= reference {
      MoreDefinitions(config, t.value.schema, root, other, refs + {t.value.key});
    }
  }

  lemma {:induction false} PartsWithMoreDefinitions(config: Config, schema: Json, root: Json, other: Json, refs: set<RefKey>)
    requires SubMap(Definitions(root), Definitions(other)) && Canon(config, schema, root, refs).Ok?
    ensures schema.Obj? ==> Members(config, schema, other, refs) == Members(config, schema, root, refs)
    ensures schema.Arr? ==> Items(config, schema, other, refs) == Items(config, schema, root, refs)
    decreases Fresh(config, root, refs), schema, 0
  {
    CanonNeedsParts(config, schema, root, refs);
    if schema.Obj? {
      forall k | k in schema.fields && Visited(schema, k)
        ensures Canon(config, schema.fields[k], other, refs) == Canon(config, schema.fields[k], root, refs)
      {
        MoreDefinitions(config, schema.fields[k], root, other, refs);
      }
    } else if schema.Arr? {
      forall i | 0 <= i < |schema.items|
        ensures Canon(config, schema.items[i], other, refs) == Canon(config, schema.items[i], root, refs)
      {
        MoreDefinitions(config, schema.items[i], root, other, refs);
      }
    }
  }

  /** The definitions taken along say what the property's form says about `$defs` already. */
  ghost predicate SameDefinitions(config: Config, root: Object, property: Json)
    requires TakesDefinitions(root, property)
  {
    var here, definitions := InPlace(config, root, WithoutDefinitions(property)), InPlace(config, root, root["$defs"]);
    || here.Err?
    || (if "$defs" in property.fields then InPlace(config, root, property.fields["$defs"]) == definitions
        else definitions.Ok? && here.value.Obj? && "$defs" in here.value.fields && here.value.fields["$defs"] == definitions.value)
  }

  /** When a detached property keeps the meaning it has in place, failures included: it mentions no
      definitions; or it takes them along and is not itself a reference, or they change nothing; or,
      where it takes none along, its own do not differ from the root's in what they let it resolve. */
  ghost predicate KeepsMeaning(config: Config, root: Object, property: Json) {
    if !MentionsDefinitions(property) then true
    else if TakesDefinitions(root, property) then Reference(property).None? || SameDefinitions(config, root, property)
    else if property.Obj? then InPlace(config, root, property).Ok? || CanonicalSchema(config, property).Err?
    else CanonicalSchema(config, property).Ok? || InPlace(config, root, property).Err?
  }

  lemma DetachedKeepsMeaningIff(config: Config, root: Object, property: Json)
    ensures CanonicalSchema(config, Detached(root, property)) == InPlace(config, root, property) <==> KeepsMeaning(config, root, property)
  {
    DetachedIs(config, root, property);
    if MentionsDefinitions(property) && !TakesDefinitions(root, property) {
      if property.Obj? && InPlace(config, root, property).Ok? {
        assert Definitions(Obj(root)) == map[];
        MoreDefinitions(config, property, Obj(root), property, {});
      } else if !property.Obj? && CanonicalSchema(config, property).Ok? {
        assert Definitions(property) == map[];
        MoreDefinitions(config, property, property, Obj(root), {});
      }
    } else if TakesDefinitions(root, property) {
      if Reference(property).None? {
        OnlyVisitedMembersMatter(config, property, WithoutDefinitions(property), Obj(root), {});
      } else {
        TakenReferenceKeepsIff(config, root, property);
      }
    }
  }

  lemma TakenReferenceKeepsIff(config: Config, root: Object, property: Json)
    requires TakesDefinitions(root, property) && Reference(property).Some?
    ensures DetachedForm(config, root, property) == InPlace(config, root, property) <==> SameDefinitions(config, root, property)
  {
    var bare := WithoutDefinitions(property);
    var here := InPlace(config, root, bare);
    if here.Ok? {
      CanonKeepsKind(config, bare, Obj(root), {});
    }
    if "$defs" in property.fields {
      ReferenceWithDefinitionsIs(config, Obj(root), property);
      BesideIsInjective(here, InPlace(config, root, property.fields["$defs"]), InPlace(config, root, root["$defs"]));
    } else {
      assert bare == property;
      if here.Ok? {
        OverwritingKeepsIff(here.value.fields, InPlace(config, root, root["$defs"]));
      }
    }
  }

  lemma {:induction false} BesideIsInjective(here: Result<Json>, a: Result<Json>, b: Result<Json>)
    requires here.Ok? ==> here.value.Obj?
    ensures Beside(here, a) == Beside(here, b) <==> here.Err? || a == b
  {
    if here.Ok? && a.Ok? && b.Ok? {
      var fields := here.value.fields;
      assert fields["$defs" := a.value]["$defs"] == a.value && fields["$defs" := b.value]["$defs"] == b.value;
    }
  }

  lemma OverwritingKeepsIff(fields: map<string, Json>, definitions: Result<Json>)
    ensures Beside(Ok(Obj(fields)), definitions) == Ok(Obj(fields)) <==>
              definitions.Ok? && "$defs" in fields && fields["$defs"] == definitions.value
  {
    if definitions.Ok? {
      assert "$defs" in fields && fields["$defs"] == definitions.value <==> fields["$defs" := definitions.value] == fields;
    }
  }

  lemma {:induction false} KeepingNeedsDefinitions(config: Config, root: Object, property: Json)
    requires TakesDefinitions(root, property) && Reference(property).Some? && "$defs" !in property.fields
    requires InPlace(config, root, property).Ok? && InPlace(config, root, property).value.Obj?
    requires "$defs" !in InPlace(config, root, property).value.fields
    ensures CanonicalSchema(config, Detached(root, property)) != InPlace(config, root, property)
  {
    assert WithoutDefinitions(property) == property;
    DetachedKeepsMeaningIff(config, root, property);
  }

  lemma {:induction false} FormHasNoDefinitions(config: Config, schema: Json, root: Json, refs: set<RefKey>)
    requires schema.Obj? && Reference(schema).None? && Canon(config, schema, root, refs).Ok?
    ensures Canon(config, schema, root, refs).value.Obj? && "$defs" !in Canon(config, schema, root, refs).value.fields
  {
    CanonUnfolds(config, schema, root, refs);
  }

  /** So a property that names a definition, itself not a reference, changes its meaning whenever it
      has one. */
  lemma {:induction false} DetachedDefinitionChanges(config: Config, root: Object, property: Json, name: string)
    requires property == Obj(map["$ref" := Str(LOCAL_PREFIX + name)]) && "$defs" in root
    requires name in Definitions(Obj(root)) && Reference(Definitions(Obj(root))[name]).None?
    requires InPlace(config, root, property).Ok?
    ensures CanonicalSchema(config, Detached(root, property)) != InPlace(config, root, property)
  {
    var target := Definitions(Obj(root))[name];
    NamedTarget(config, root, property, name);
    CanonKeepsKind(config, target, Obj(root), {Local(name)});
    FormHasNoDefinitions(config, target, Obj(root), {Local(name)});
    KeepingNeedsDefinitions(config, root, property);
  }

  /** One definition without a canonical form, used or not, makes every property that is a reference
      and takes definitions along fail. */
  lemma BadDefinitionFails(config: Config, root: Object, property: Json, name: string)
    requires TakesDefinitions(root, property) && Reference(property).Some?
    requires name in Definitions(Obj(root)) && Reference(root["$defs"]).None? && Kept(name)
    requires InPlace(config, root, Definitions(Obj(root))[name]).Err?
    ensures CanonicalSchema(config, Detached(root, property)).Err?
  {
    DetachedIs(config, root, property);
    if InPlace(config, root, root["$defs"]).Ok? {
      CanonNeedsParts(config, root["$defs"], Obj(root), {});
    }
  }

  /** A bare local reference stands for its target. */
  lemma NamedTarget(config: Config, root: Object, property: Json, name: string)
    requires property == Obj(map["$ref" := Str(LOCAL_PREFIX + name)]) && name in Definitions(Obj(root))
    ensures Reference(property) == Some(LOCAL_PREFIX + name) && MentionsDefinitions(property)
    ensures InPlace(config, root, property).Ok? ==>
              var target := Canon(config, Definitions(Obj(root))[name], Obj(root), {Local(name)});
              target.Ok? && target.value.Obj? && InPlace(config, root, property) == target
  {
    var reference := LOCAL_PREFIX + name;
    assert reference[|LOCAL_PREFIX|..] == name;
    assert Reference(property) == Some(reference);
    CanonUnfolds(config, property, Obj(root), {});
    assert {} + {Local(name)} == {Local(name)};
    var members := Members(config, property, Obj(root), {});
    assert members == map[];
    if InPlace(config, root, property).Ok? {
      var target := Followed(config, reference, Obj(root), {});
      assert target.value.fields + Values(members) == target.value.fields;
    }
  }
}
