/** Which drift a strict contract notices: acceptance between whole operations, in terms of what they declare. */
module ContractDrift {
  import opened JsonValues
  import opened KeyedEntries
  import opened Canonical
  import opened CanonicalNormalForm
  import opened CanonicalMeaning
  import opened CanonicalKeywords
  import opened StrictContracts
  import opened WellFormedOperations

  // ---------------------------------------------------------------- what an operation declares

  /** The element, or the component it refers to, declares a path or query parameter with this schema. */
  ghost predicate DeclaredBy(config: Config, value: Json, key: ParameterKey, required: bool, schema: Json) {
    (key.0 == "path" || key.0 == "query")
    && exists fields :: StandsFor(config, value, "parameters", fields) && Declaration(fields, key, required, schema)
  }

  ghost predicate Declaration(fields: Object, key: ParameterKey, required: bool, schema: Json) {
    && Lookup(fields, "in") == Some(Str(key.0)) && Lookup(fields, "name") == Some(Str(key.1))
    && Lookup(fields, "required") == Some(Bool(required)) && Lookup(fields, "schema") == Some(schema)
  }

  ghost predicate HasParameter(config: Config, operation: Object, key: ParameterKey, required: bool, schema: Json) {
    match Lookup(operation, "parameters")
    case Some(Arr(items)) => exists i :: 0 <= i < |items| && DeclaredBy(config, items[i], key, required, schema)
    case _ => false
  }

  ghost predicate HasBody(config: Config, operation: Object, required: bool, schema: Json) {
    "requestBody" in operation && IsBody(config, operation["requestBody"], required, schema)
  }

  ghost predicate HasResponse(config: Config, operation: Object, status: string, schema: Json) {
    match Lookup(operation, "responses")
    case Some(Obj(responses)) => status in responses && IsResponse(config, status, responses[status], schema)
    case _ => false
  }

  // ---------------------------------------------------------------- no drift

  ghost predicate Declares(config: Config, operation: Object, key: ParameterKey) { exists r, s :: HasParameter(config, operation, key, r, s) }

  ghost predicate SameParameters(config: Config, a: Object, b: Object) {
    && (forall key :: Declares(config, a, key) <==> Declares(config, b, key))
    && (forall key, r, s, q, t :: HasParameter(config, a, key, r, s) && HasParameter(config, b, key, q, t) ==> r == q && SaysTheSame(config, s, t))
  }

  ghost predicate SameBodies(config: Config, a: Object, b: Object) {
    && ((exists r, s :: HasBody(config, a, r, s)) <==> exists r, s :: HasBody(config, b, r, s))
    && (forall r, s, q, t :: HasBody(config, a, r, s) && HasBody(config, b, q, t) ==> r == q && SaysTheSame(config, s, t))
  }

  ghost predicate Answers(config: Config, operation: Object, status: string) { exists s :: HasResponse(config, operation, status, s) }

  ghost predicate SameResponses(config: Config, a: Object, b: Object) {
    && (forall status :: Answers(config, a, status) <==> Answers(config, b, status))
    && (forall status, s, t :: HasResponse(config, a, status, s) && HasResponse(config, b, status, t) ==> SaysTheSame(config, s, t))
  }

  // ---------------------------------------------------------------- parameters

  lemma ReadingIs(config: Config, value: Json, key: ParameterKey, required: bool, schema: Json)
    requires DeclaredBy(config, value, key, required, schema) && !ReadParameter(config, value).Bad?
    ensures CanonicalSchema(config, schema).Ok?
    ensures ReadParameter(config, value) == Entry(key, Parameter(required, CanonicalSchema(config, schema).value))
  {
    var fields :| StandsFor(config, value, "parameters", fields) && Declaration(fields, key, required, schema);
    ComponentResolvesIff(config, value, "parameters", fields);
  }

  lemma ReadingDeclares(config: Config, value: Json) returns (schema: Json)
    requires ReadParameter(config, value).Entry?
    ensures var e := ReadParameter(config, value); DeclaredBy(config, value, e.key, e.value.required, schema)
  {
    var fields := ResolveComponent(config, value, "parameters").value.fields;
    schema := fields["schema"];
    ComponentResolvesIff(config, value, "parameters", fields);
    assert Declaration(fields, ReadParameter(config, value).key, ReadParameter(config, value).value.required, schema);
  }

  lemma ParameterIs(config: Config, operation: Object, key: ParameterKey, required: bool, schema: Json)
    requires Parameters(config, Lookup(operation, "parameters")).Ok? && HasParameter(config, operation, key, required, schema)
    ensures var m := Parameters(config, Lookup(operation, "parameters")).value;
            key in m && CanonicalSchema(config, schema).Ok? && m[key] == Parameter(required, CanonicalSchema(config, schema).value)
  {
    var items := operation["parameters"].items;
    var readings := Readings(config, items);
    var i :| 0 <= i < |items| && DeclaredBy(config, items[i], key, required, schema);
    CollectedEntry(readings, i);
    assert readings[i] == ReadParameter(config, items[i]);
    ReadingIs(config, items[i], key, required, schema);
  }

  lemma ParameterIsDeclared(config: Config, operation: Object, key: ParameterKey) returns (schema: Json)
    requires Parameters(config, Lookup(operation, "parameters")).Ok? && key in Parameters(config, Lookup(operation, "parameters")).value
    ensures HasParameter(config, operation, key, Parameters(config, Lookup(operation, "parameters")).value[key].required, schema)
  {
    var items := operation["parameters"].items;
    var readings := Readings(config, items);
    var i := CollectedKey(readings, key);
    assert readings[i] == ReadParameter(config, items[i]);
    schema := ReadingDeclares(config, items[i]);
  }

  function ParametersOf(config: Config, operation: Object): map<ParameterKey, Parameter>
    requires Parameters(config, Lookup(operation, "parameters")).Ok?
  {
    Parameters(config, Lookup(operation, "parameters")).value
  }

  lemma ParameterKeys(config: Config, operation: Object, key: ParameterKey)
    requires Parameters(config, Lookup(operation, "parameters")).Ok?
    ensures key in ParametersOf(config, operation) <==> Declares(config, operation, key)
  {
    if key in ParametersOf(config, operation) {
      var s := ParameterIsDeclared(config, operation, key);
    }
    if Declares(config, operation, key) {
      var r, s :| HasParameter(config, operation, key, r, s);
      ParameterIs(config, operation, key, r, s);
    }
  }

  lemma SameMapsSameParameters(config: Config, a: Object, b: Object)
    requires Injective(config)
    requires Parameters(config, Lookup(a, "parameters")).Ok? && Parameters(config, Lookup(b, "parameters")).Ok?
    requires ParametersOf(config, a) == ParametersOf(config, b)
    ensures SameParameters(config, a, b)
  {
    forall key ensures Declares(config, a, key) <==> Declares(config, b, key) {
      ParameterKeys(config, a, key);
      ParameterKeys(config, b, key);
    }
    forall key, r, s, q, t | HasParameter(config, a, key, r, s) && HasParameter(config, b, key, q, t)
      ensures r == q && SaysTheSame(config, s, t)
    {
      ParameterIs(config, a, key, r, s);
      ParameterIs(config, b, key, q, t);
      CanonicalSchemasEqualIff(config, s, t);
    }
  }

  lemma SameParametersSameMaps(config: Config, a: Object, b: Object)
    requires Injective(config)
    requires Parameters(config, Lookup(a, "parameters")).Ok? && Parameters(config, Lookup(b, "parameters")).Ok?
    requires SameParameters(config, a, b)
    ensures ParametersOf(config, a) == ParametersOf(config, b)
  {
    var m, n := ParametersOf(config, a), ParametersOf(config, b);
    forall key ensures key in m <==> key in n {
      ParameterKeys(config, a, key);
      ParameterKeys(config, b, key);
    }
    forall key | key in m && key in n ensures m[key] == n[key] {
      var s := ParameterIsDeclared(config, a, key);
      var t := ParameterIsDeclared(config, b, key);
      ParameterIs(config, a, key, m[key].required, s);
      ParameterIs(config, b, key, n[key].required, t);
      CanonicalSchemasEqualIff(config, s, t);
    }
  }

  lemma ParametersAgreeIff(config: Config, a: Object, b: Object)
    requires Injective(config)
    requires Parameters(config, Lookup(a, "parameters")).Ok? && Parameters(config, Lookup(b, "parameters")).Ok?
    ensures ParametersAgree(config, a, b) <==> SameParameters(config, a, b)
  {
    if ParametersOf(config, a) == ParametersOf(config, b) {
      SameMapsSameParameters(config, a, b);
    }
    if SameParameters(config, a, b) {
      SameParametersSameMaps(config, a, b);
    }
  }

  // ---------------------------------------------------------------- bodies

  ghost predicate BodyReads(config: Config, operation: Object) {
    "requestBody" in operation ==> ReadBody(config, operation["requestBody"]).Ok?
  }

  lemma BodyIs(config: Config, operation: Object, required: bool, schema: Json)
    requires BodyReads(config, operation) && HasBody(config, operation, required, schema)
    ensures CanonicalSchema(config, schema).Ok?
    ensures ReadBody(config, operation["requestBody"]) == Ok(RequestBody(required, CanonicalSchema(config, schema).value))
  {
    BodyIff(config, operation["requestBody"]);
  }

  lemma BodyIsDeclared(config: Config, operation: Object) returns (required: bool, schema: Json)
    requires BodyReads(config, operation) && "requestBody" in operation
    ensures HasBody(config, operation, required, schema)
  {
    BodyIff(config, operation["requestBody"]);
    required, schema :| IsBody(config, operation["requestBody"], required, schema) && CanonicalSchema(config, schema).Ok?;
  }

  lemma BodiesAgreeIff(config: Config, a: Object, b: Object)
    requires Injective(config) && BodyReads(config, a) && BodyReads(config, b)
    ensures BodiesAgree(config, a, b) <==> SameBodies(config, a, b)
  {
    if "requestBody" in a && "requestBody" in b {
      var r, s := BodyIsDeclared(config, a);
      var q, t := BodyIsDeclared(config, b);
      forall r, s, q, t | HasBody(config, a, r, s) && HasBody(config, b, q, t)
        ensures BodiesAgree(config, a, b) <==> r == q && SaysTheSame(config, s, t)
      {
        BodyIs(config, a, r, s);
        BodyIs(config, b, q, t);
        CanonicalSchemasEqualIff(config, s, t);
      }
    } else if "requestBody" in a {
      var r, s := BodyIsDeclared(config, a);
    } else if "requestBody" in b {
      var r, s := BodyIsDeclared(config, b);
    }
  }

  // ---------------------------------------------------------------- responses

  lemma ResponseIs(config: Config, operation: Object, status: string)
    requires Responses(config, Lookup(operation, "responses")).Ok?
    ensures var m := Responses(config, Lookup(operation, "responses")).value;
            && (status in m <==> Answers(config, operation, status))
            && (forall s :: HasResponse(config, operation, status, s) ==>
                  status in m && CanonicalSchema(config, s).Ok? && m[status] == Response(MediaType(status), CanonicalSchema(config, s).value))
  {
    var responses := operation["responses"].fields;
    if status in responses {
      var read := ResponseReader(config)(status, responses[status]);
      assert read.Ok? && read == ReadResponse(config, status, responses[status]);
      ResponseIff(config, status, responses[status]);
      var s :| IsResponse(config, status, responses[status], s) && CanonicalSchema(config, s).Ok?;
      assert HasResponse(config, operation, status, s);
    }
  }

  lemma ResponsesAgreeIff(config: Config, a: Object, b: Object)
    requires Injective(config)
    requires Responses(config, Lookup(a, "responses")).Ok? && Responses(config, Lookup(b, "responses")).Ok?
    ensures ResponsesAgree(config, a, b) <==> SameResponses(config, a, b)
  {
    var m, n := Responses(config, Lookup(a, "responses")).value, Responses(config, Lookup(b, "responses")).value;
    if m == n {
      forall status ensures Answers(config, a, status) <==> Answers(config, b, status) {
        ResponseIs(config, a, status);
        ResponseIs(config, b, status);
      }
      forall status, s, t | HasResponse(config, a, status, s) && HasResponse(config, b, status, t) ensures SaysTheSame(config, s, t) {
        ResponseIs(config, a, status);
        ResponseIs(config, b, status);
        CanonicalSchemasEqualIff(config, s, t);
      }
    }
    if SameResponses(config, a, b) {
      forall status ensures status in m <==> status in n {
        ResponseIs(config, a, status);
        ResponseIs(config, b, status);
        assert Answers(config, a, status) <==> Answers(config, b, status);
      }
      forall status | status in m && status in n ensures m[status] == n[status] {
        ResponseIs(config, a, status);
        ResponseIs(config, b, status);
        var s :| HasResponse(config, a, status, s);
        var t :| HasResponse(config, b, status, t);
        assert SaysTheSame(config, s, t);
        CanonicalSchemasEqualIff(config, s, t);
      }
    }
  }

  // ---------------------------------------------------------------- the theorem

  /** One operation accepts another exactly when both are well formed and they declare the same path and
      query parameters with the same flags, both or neither a body with the same flag, the same statuses,
      and schemas that say the same throughout. */
  lemma AcceptsIffNoDrift(config: Config, a: Object, b: Object)
    requires Injective(config)
    ensures Accepts(config, a, b) <==>
              && WellFormed(config, a) && WellFormed(config, b)
              && SameParameters(config, a, b) && SameBodies(config, a, b) && SameResponses(config, a, b)
  {
    AcceptsIffSameSurface(config, a, b);
    SurfaceIff(config, a);
    SurfaceIff(config, b);
    ComparableIff(config, a);
    ComparableIff(config, b);
    if SurfaceOf(config, a).Some? && SurfaceOf(config, b).Some? {
      ParametersAgreeIff(config, a, b);
      BodiesAgreeIff(config, a, b);
      ResponsesAgreeIff(config, a, b);
    }
  }

  /** A contract for this route and this operation. */
  ghost predicate ContractFor(contract: Json, routeId: string, verb: string, path: string, expected: Object) {
    && contract.Obj? && {"route_id", "method", "path", "operation"} <= contract.fields.Keys
    && contract.fields["route_id"] == Str(routeId) && contract.fields["method"] == Str(verb)
    && contract.fields["path"] == Str(path) && contract.fields["operation"] == Obj(expected)
  }

  /** An operation validates exactly against the contracts for its own route whose operation it does not
      differ from. */
  lemma ValidatesIffNoDrift(config: Config, routeId: string, verb: string, path: string, operation: Object, contract: Json)
    requires Injective(config)
    ensures Validates(config, routeId, verb, path, operation, contract) <==>
              exists expected ::
                && ContractFor(contract, routeId, verb, path, expected)
                && WellFormed(config, expected) && WellFormed(config, operation)
                && SameParameters(config, expected, operation) && SameBodies(config, expected, operation)
                && SameResponses(config, expected, operation)
  {
    forall expected
      ensures Accepts(config, expected, operation) <==>
                && WellFormed(config, expected) && WellFormed(config, operation)
                && SameParameters(config, expected, operation) && SameBodies(config, expected, operation)
                && SameResponses(config, expected, operation)
    {
      AcceptsIffNoDrift(config, expected, operation);
    }
    ValidatesIff(config, routeId, verb, path, operation, contract);
  }

  lemma ValidatesIff(config: Config, routeId: string, verb: string, path: string, operation: Object, contract: Json)
    ensures Validates(config, routeId, verb, path, operation, contract) <==>
              exists expected :: ContractFor(contract, routeId, verb, path, expected) && Accepts(config, expected, operation)
  {
    if Validates(config, routeId, verb, path, operation, contract) {
      var expected := contract.fields["operation"].fields;
      assert ContractFor(contract, routeId, verb, path, expected);
    }
  }

  // ---------------------------------------------------------------- one keyword

  /** A response that promises values of one type. */
  function OfType(mediaType: string, name: string): Json {
    Obj(map["content" := Obj(map[mediaType := Obj(map["schema" := Obj(map["type" := Str(name)])])])])
  }

  /** The operation with that response under this status. */
  function Answering(operation: Object, responses: Object, status: string, name: string): Object {
    operation["responses" := Obj(responses[status := OfType(if "2" <= status then "application/json" else "application/problem+json", name)])]
  }

  lemma OfTypeReads(config: Config, status: string, name: string)
    requires StatusCode(status)
    ensures var value := OfType(if "2" <= status then "application/json" else "application/problem+json", name);
            var schema := Obj(map["type" := Str(name)]);
            && CanonicalSchema(config, schema).Ok?
            && ReadResponse(config, status, value) == Ok(Response(MediaType(status), CanonicalSchema(config, schema).value))
  {
    var schema := Obj(map["type" := Str(name)]);
    SingleMember(config, "type", Str(name), schema);
    var media := if "2" <= status then "application/json" else "application/problem+json";
    var value := OfType(media, name);
    assert Reference(value).None?;
    assert value.fields["content"].fields.Keys == {media};
  }

  /** Changing the type in one response, and nothing else, is always noticed. */
  lemma TypeDriftIsNoticed(config: Config, operation: Object, responses: Object, status: string, a: string, b: string)
    requires WellFormed(config, Answering(operation, responses, status, a))
    ensures Accepts(config, Answering(operation, responses, status, a), Answering(operation, responses, status, b)) <==> a == b
  {
    var x, y := Answering(operation, responses, status, a), Answering(operation, responses, status, b);
    ComparableIff(config, x);
    AcceptsIffSameSurface(config, x, y);
    AcceptsIffSameSurface(config, x, x);
    SurfaceIff(config, x);
    SurfaceIff(config, y);
    var here := x["responses"].fields;
    assert ResponseReader(config)(status, here[status]).Ok?;
    if a != b && SurfaceOf(config, y).Some? {
      OfTypeReads(config, status, a);
      OfTypeReads(config, status, b);
      KeywordMattersIff(config, "type", Str(a), Str(b));
      ReadAt(config, x, status);
      ReadAt(config, y, status);
    }
  }

  lemma ReadAt(config: Config, operation: Object, status: string)
    requires Lookup(operation, "responses").Some? && operation["responses"].Obj? && status in operation["responses"].fields
    requires Responses(config, Lookup(operation, "responses")).Ok?
    ensures var m := Responses(config, Lookup(operation, "responses")).value;
            status in m && ReadResponse(config, status, operation["responses"].fields[status]) == Ok(m[status])
  {
    assert ResponseReader(config)(status, operation["responses"].fields[status]).Ok?;
  }
}
