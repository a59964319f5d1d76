/** Contracts derived from types: when they validate against themselves. */
module DerivedContracts {
  import opened JsonValues
  import opened Canonical
  import opened StrictContracts
  import opened ContractBuilder
  import opened DetachedSchemas
  import opened Texts
  import opened PathTemplates
  import opened Assembly

  // ---------------------------------------------------------------- from types to fragments

  /** One `path` or `query` call: the schema of its type. */
  datatype Source = Source(location: string, schema: Json)

  ghost predicate GoodSource(source: Source) {
    (source.location == "path" || source.location == "query") && HasProperties(source.schema)
  }

  ghost predicate Declares(source: Source, key: ParameterKey) {
    source.location == key.0 && key.1 in Properties(source.schema)
  }

  function DeclaredBy(source: Source): map<ParameterKey, Json>
    requires HasProperties(source.schema)
  {
    Declared(source.location, source.location == "path", source.schema, Properties(source.schema).Keys)
  }

  /** The calls a builder accepts: object schemas, no parameter declared twice. */
  ghost predicate Acceptable(sources: seq<Source>) {
    && (forall i :: 0 <= i < |sources| ==> GoodSource(sources[i]))
    && (forall i, j, key :: 0 <= i < j < |sources| && Declares(sources[i], key) ==> !Declares(sources[j], key))
  }

  /** What they gather. */
  function FromTypes(sources: seq<Source>): map<ParameterKey, Json>
    requires forall i :: 0 <= i < |sources| ==> HasProperties(sources[i].schema)
  {
    if sources == [] then map[] else FromTypes(sources[..|sources| - 1]) + DeclaredBy(sources[|sources| - 1])
  }

  lemma {:induction false} FromTypesAre(sources: seq<Source>, key: ParameterKey)
    requires Acceptable(sources)
    ensures key in FromTypes(sources) <==> exists i :: 0 <= i < |sources| && Declares(sources[i], key)
    ensures forall i :: 0 <= i < |sources| && Declares(sources[i], key) ==>
              key in FromTypes(sources) && SchemaIn(FromTypes(sources)[key]) == DetachedProperty(sources[i], key.1)
  {
    if sources != [] {
      var shorter, last := sources[..|sources| - 1], sources[|sources| - 1];
      FromTypesAre(shorter, key);
      assert forall i :: 0 <= i < |shorter| ==> shorter[i] == sources[i];
      DeclaredByIs(last, key);
    }
  }

  function DetachedProperty(source: Source, name: string): Json
    requires HasProperties(source.schema) && name in Properties(source.schema)
  {
    Detached(source.schema.fields, Properties(source.schema)[name])
  }

  lemma DeclaredByIs(source: Source, key: ParameterKey)
    requires GoodSource(source)
    ensures key in DeclaredBy(source) <==> Declares(source, key)
    ensures Declares(source, key) ==> SchemaIn(DeclaredBy(source)[key]) == DetachedProperty(source, key.1)
  {
    var names := Properties(source.schema).Keys;
    assert key in Keyed(source.location, names) <==> Declares(source, key);
    if Declares(source, key) {
      var value := ParameterFrom(source.location, source.location == "path", source.schema, key.1);
      assert value.fields["schema"] == DetachedProperty(source, key.1);
    }
  }

  lemma {:induction false} FromTypesAreWellDeclared(sources: seq<Source>, g: Gathered)
    requires Acceptable(sources) && WellDeclared(g.(parameters := map[]))
    ensures WellDeclared(g.(parameters := FromTypes(sources)))
    decreases |sources|
  {
    if sources != [] {
      var shorter, last := sources[..|sources| - 1], sources[|sources| - 1];
      assert forall i :: 0 <= i < |shorter| ==> shorter[i] == sources[i];
      FromTypesAreWellDeclared(shorter, g);
      DeclaringKeepsWellDeclared(g.(parameters := FromTypes(shorter)), last.location, last.location == "path", last.schema);
    }
  }

  /** A property stands for something once it is detached, in terms of the type's own schema. */
  ghost predicate Stands(config: Config, source: Source, name: string)
    requires HasProperties(source.schema) && name in Properties(source.schema)
  {
    DetachedForm(config, source.schema.fields, Properties(source.schema)[name]).Ok?
  }

  ghost predicate PropertiesStand(config: Config, source: Source)
    requires HasProperties(source.schema)
  {
    forall name :: name in Properties(source.schema) ==> Stands(config, source, name)
  }

  ghost predicate HasForm(config: Config, sources: seq<Source>, key: ParameterKey)
    requires Acceptable(sources)
  {
    Canonicalises(config, FromTypes(sources))(key)
  }

  lemma PropertyStandsIff(config: Config, sources: seq<Source>, i: nat, key: ParameterKey)
    requires Acceptable(sources) && i < |sources| && Declares(sources[i], key)
    ensures key in FromTypes(sources)
    ensures HasForm(config, sources, key) <==> Stands(config, sources[i], key.1)
  {
    FromTypesAre(sources, key);
    DetachedIs(config, sources[i].schema.fields, Properties(sources[i].schema)[key.1]);
  }

  lemma ParametersCanonicaliseIff(config: Config, sources: seq<Source>)
    requires Acceptable(sources)
    ensures (forall key :: key in FromTypes(sources) ==> HasForm(config, sources, key))
       <==> forall i :: 0 <= i < |sources| ==> PropertiesStand(config, sources[i])
  {
    if forall key :: key in FromTypes(sources) ==> HasForm(config, sources, key) {
      forall i, name | 0 <= i < |sources| && name in Properties(sources[i].schema) ensures Stands(config, sources[i], name) {
        PropertyStandsIff(config, sources, i, (sources[i].location, name));
      }
    }
    if forall i :: 0 <= i < |sources| ==> PropertiesStand(config, sources[i]) {
      forall key | key in FromTypes(sources) ensures HasForm(config, sources, key) {
        FromTypesAre(sources, key);
        var i :| 0 <= i < |sources| && Declares(sources[i], key);
        PropertyStandsIff(config, sources, i, key);
      }
    }
  }

  /** What a builder holds after calls for these types. */
  ghost function GatheredFrom(sources: seq<Source>, body: Option<(bool, Json)>, status: nat, success: Json, problems: map<nat, set<string>>): Gathered
    requires Acceptable(sources)
  {
    Gathered(FromTypes(sources), if body.Some? then Some(BodyJson(body.value.0, body.value.1)) else None, Some((status, success)), problems)
  }

  /** The fragment built for a handler validates against its own operation exactly when every property
      of its path and query types, its body type and its success type stand for something. */
  lemma DerivedFragmentValidatesIff(config: Config, routeId: string, verb: string, path: string, sources: seq<Source>,
                                    body: Option<(bool, Json)>, status: nat, success: Json, problems: map<nat, set<string>>)
    requires Acceptable(sources) && 200 <= status <= 299 && forall s :: s in problems ==> 400 <= s <= 599
    ensures var operation := OperationOf(GatheredFrom(sources, body, status, success, problems));
            Validates(config, routeId, verb, path, operation, FragmentJson(routeId, verb, path, operation)) <==>
              && (forall i :: 0 <= i < |sources| ==> PropertiesStand(config, sources[i]))
              && (body.Some? ==> CanonicalSchema(config, body.value.1).Ok?)
              && CanonicalSchema(config, success).Ok?
  {
    var g := GatheredFrom(sources, body, status, success, problems);
    if body.Some? {
      BodyIsDeclared(body.value.0, body.value.1);
      BodySchemaIs(body.value.0, body.value.1);
    }
    assert WellDeclared(g.(parameters := map[]));
    FromTypesAreWellDeclared(sources, g);
    assert g.(parameters := FromTypes(sources)) == g;
    ParametersCanonicaliseIff(config, sources);
    assert forall key :: key in g.parameters ==> (Canonicalises(config, g.parameters)(key) <==> HasForm(config, sources, key));
    FragmentValidatesItselfIff(config, routeId, verb, path, g);
  }

  lemma BodySchemaIs(required: bool, schema: Json)
    ensures BodySchema(BodyJson(required, schema)) == schema
  {
    var content := ContentJson("application/json", schema);
    assert BodyJson(required, schema).fields["content"] == content;
    assert content.fields["application/json"] == Obj(map["schema" := schema]);
  }

  // ---------------------------------------------------------------- a contract that publishing breaks

  const NO_CONSTRAINT: Json := Obj(map[])

  /** A handler that declares nothing but a success response. */
  ghost function Silent(): Object { OperationOf(GatheredFrom([], None, 200, NO_CONSTRAINT, map[])) }

  /** Its route, with a path parameter. */
  ghost function SilentRoute(): Route {
    Route("r", "get", "/{x}", Some(Silent()[CONTRACT_EXTENSION := FragmentJson("r", "get", "/{x}", Silent())]))
  }

  lemma SilentIs()
    ensures "parameters" !in Silent() && "operationId" !in Silent() && CONTRACT_EXTENSION !in Silent()
    ensures Lookup(Silent(), "responses").Some? && Silent()["responses"].Obj?
  {
    var g := GatheredFrom([], None, 200, NO_CONSTRAINT, map[]);
    KeysAreListed(g.parameters);
    assert Listing(KeyLe, g.parameters.Keys) == [];
    assert OrderedParameters(g) == [];
  }

  lemma SilentValidates(config: Config)
    ensures Validates(config, "r", "get", "/{x}", Silent(), FragmentJson("r", "get", "/{x}", Silent()))
  {
    assert ReferenceFree(NO_CONSTRAINT);
    ReferenceFreeCanonicalises(config, NO_CONSTRAINT, NO_CONSTRAINT, {});
    DerivedFragmentValidatesIff(config, "r", "get", "/{x}", [], None, 200, NO_CONSTRAINT, map[]);
  }

  lemma SilentTemplate()
    ensures TemplateOf("/{x}") == Ok(("/{x}", ["x"]))
  {
    var none: seq<string> := [];
    assert none + ["x"] == ["x"];
    RenderOfStep("/", "x", "", []);
    RenderOfTail("", ["x"]);
    assert "/" + ['{'] + "x" + ['}'] + "" == "/{x}";
  }

  lemma SilentTexts()
    ensures LowerText(TrimText("get")) == "get" && !Blank("r")
  {
    assert !Whitespace('g') && !Whitespace('t') && TrimText("get") == "get";
    assert LowerText("get") == "get";
    assert "r"[0] == 'r' && !Whitespace('r');
  }

  lemma SilentPrepares(config: Config)
    ensures Prepare(config, SilentRoute()).Ok?
  {
    SilentIs();
    SilentTemplate();
    SilentTexts();
    SilentValidates(config);
    assert ParameterItems(Silent()) == Some([]);
    assert DeclaredNames([]) == Ok({});
    StrictRoutePrepares(config, SilentRoute(), Silent(), FragmentJson("r", "get", "/{x}", Silent()));
  }

  /** "A published operation meets its contract" is false: a handler that does not declare the path
      parameter of its own route is assembled, and the default appended for it breaks the contract. */
  lemma PublishingCanBreakContract(config: Config)
    ensures var route := SilentRoute();
            && Prepare(config, route).Ok?
            && !Validates(config, route.routeId, route.verb, route.path, Prepare(config, route).value.operation, route.openapi.value[CONTRACT_EXTENSION])
  {
    SilentPrepares(config);
    SilentIs();
    SilentTemplate();
    PublishedContractHoldsIff(config, SilentRoute());
    assert "x" in TemplateOf("/{x}").value.1;
    assert ParameterItems(SilentRoute().openapi.value) == Some([]);
  }
}
