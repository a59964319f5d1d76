/** Which operations a strict contract can be about, in terms of the JSON alone. */
module WellFormedOperations {
  import opened JsonValues
  import opened Sorting
  import opened KeyedEntries
  import opened Canonical
  import opened StrictContracts

  // ---------------------------------------------------------------- components

  ghost predicate HasReference(value: Json) { value.Obj? && "$ref" in value.fields && value.fields["$ref"].Str? }

  /** The value refers to the component of this name: not empty and without a slash. */
  ghost predicate RefersTo(config: Config, value: Json, section: string, name: string, target: Json) {
    && HasReference(value) && value.fields["$ref"].text == "#/components/" + section + "/" + name
    && name != "" && '/' !in name
    && section in config.components && config.components[section].Obj?
    && name in config.components[section].fields && config.components[section].fields[name] == target
  }

  /** The value is this object, or refers to a component that is. */
  ghost predicate StandsFor(config: Config, value: Json, section: string, fields: Object) {
    (!HasReference(value) && value == Obj(fields)) || exists name :: RefersTo(config, value, section, name, Obj(fields))
  }

  lemma ComponentResolvesIff(config: Config, value: Json, section: string, fields: Object)
    ensures ResolveComponent(config, value, section) == Ok(Obj(fields)) <==> StandsFor(config, value, section, fields)
  {
    assert HasReference(value) <==> Reference(value).Some?;
    if HasReference(value) {
      var reference := value.fields["$ref"].text;
      var prefix := "#/components/" + section + "/";
      assert Reference(value) == Some(reference);
      if prefix <= reference {
        assert reference == prefix + reference[|prefix|..];
        assert RefersTo(config, value, section, reference[|prefix|..], Obj(fields)) <==>
            ResolveComponent(config, value, section) == Ok(Obj(fields));
      }
      forall name | RefersTo(config, value, section, name, Obj(fields)) ensures prefix <= reference && name == reference[|prefix|..] {
        assert (prefix + name)[|prefix|..] == name;
      }
    }
  }

  // ---------------------------------------------------------------- parameters

  ghost predicate Located(fields: Object) { "in" in fields && fields["in"].Str? }

  /** A path or query parameter; others are skipped. */
  ghost predicate Compared(fields: Object) { Located(fields) && (fields["in"].text == "path" || fields["in"].text == "query") }

  ghost predicate WellDeclared(config: Config, fields: Object)
    requires Compared(fields)
  {
    var path := fields["in"].text == "path";
    && "name" in fields && fields["name"].Str?
    && "required" in fields && fields["required"].Bool? && (path ==> fields["required"].truth)
    && ("style" in fields && fields["style"].Str? ==> fields["style"].text == if path then "simple" else "form")
    && ("explode" in fields && fields["explode"].Bool? ==> fields["explode"].truth == !path)
    && !("allowReserved" in fields && fields["allowReserved"] == Bool(true))
    && "schema" in fields && CanonicalSchema(config, fields["schema"]).Ok?
  }

  /** One element of a parameters array. */
  ghost predicate GoodElement(config: Config, value: Json, fields: Object) {
    StandsFor(config, value, "parameters", fields) && Located(fields) && (Compared(fields) ==> WellDeclared(config, fields))
  }

  /** The element declares this path or query parameter. */
  ghost predicate Names(config: Config, value: Json, key: ParameterKey) {
    (key.0 == "path" || key.0 == "query")
    && exists fields :: StandsFor(config, value, "parameters", fields) && Lookup(fields, "in") == Some(Str(key.0)) && Lookup(fields, "name") == Some(Str(key.1))
  }

  ghost predicate Readable(config: Config, value: Json) { exists fields :: GoodElement(config, value, fields) }

  ghost predicate NamesDiffer(config: Config, items: seq<Json>) {
    forall i, j, key :: 0 <= i < j < |items| && Names(config, items[i], key) ==> !Names(config, items[j], key)
  }

  ghost predicate GoodParameters(config: Config, items: seq<Json>) {
    (forall i :: 0 <= i < |items| ==> Readable(config, items[i])) && NamesDiffer(config, items)
  }

  lemma ElementIff(config: Config, value: Json)
    ensures !ReadParameter(config, value).Bad? <==> Readable(config, value)
  {
    forall fields ensures ResolveComponent(config, value, "parameters") == Ok(Obj(fields)) <==> StandsFor(config, value, "parameters", fields) {
      ComponentResolvesIff(config, value, "parameters", fields);
    }
    var resolved := ResolveComponent(config, value, "parameters");
    if resolved.Ok? && resolved.value.Obj? {
      assert !ReadParameter(config, value).Bad? <==> GoodElement(config, value, resolved.value.fields);
    }
  }

  lemma KeyIff(config: Config, value: Json, key: ParameterKey)
    requires !ReadParameter(config, value).Bad?
    ensures ReadParameter(config, value).Entry? && ReadParameter(config, value).key == key <==> Names(config, value, key)
  {
    forall fields ensures ResolveComponent(config, value, "parameters") == Ok(Obj(fields)) <==> StandsFor(config, value, "parameters", fields) {
      ComponentResolvesIff(config, value, "parameters", fields);
    }
  }

  lemma ParametersIff(config: Config, items: seq<Json>)
    ensures Parameters(config, Some(Arr(items))).Ok? <==> GoodParameters(config, items)
  {
    var readings := Readings(config, items);
    CollectSucceedsIff(readings);
    forall i | 0 <= i < |items| ensures !readings[i].Bad? <==> Readable(config, items[i]) {
      assert readings[i] == ReadParameter(config, items[i]);
      ElementIff(config, items[i]);
    }
    assert NoneBad(readings) <==> forall i :: 0 <= i < |items| ==> Readable(config, items[i]);
    if NoneBad(readings) {
      forall i, key | 0 <= i < |items| ensures readings[i].Entry? && readings[i].key == key <==> Names(config, items[i], key) {
        assert readings[i] == ReadParameter(config, items[i]);
        KeyIff(config, items[i], key);
      }
      DistinctIff(config, items, readings);
    }
  }

  lemma DistinctIff(config: Config, items: seq<Json>, readings: seq<Entry<ParameterKey, Parameter>>)
    requires |items| == |readings|
    requires forall i, key :: 0 <= i < |items| ==> (readings[i].Entry? && readings[i].key == key <==> Names(config, items[i], key))
    ensures DistinctKeys(readings) <==> NamesDiffer(config, items)
  {
    if DistinctKeys(readings) {
      forall i, j, key | 0 <= i < j < |items| && Names(config, items[i], key) ensures !Names(config, items[j], key) {
        assert readings[i].Entry? && readings[i].key == key;
      }
    }
    if NamesDiffer(config, items) {
      forall i, j | 0 <= i < j < |readings| && readings[i].Entry? && readings[j].Entry? ensures readings[i].key != readings[j].key {
        assert Names(config, items[i], readings[i].key);
        assert Names(config, items[j], readings[j].key);
      }
    }
  }

  // ---------------------------------------------------------------- bodies and responses

  /** The content has one media type, and under it a schema. */
  ghost predicate OnlyContent(fields: Object, mediaType: string, schema: Json) {
    && "content" in fields && fields["content"].Obj? && fields["content"].fields.Keys == {mediaType}
    && fields["content"].fields[mediaType].Obj?
    && "schema" in fields["content"].fields[mediaType].fields && fields["content"].fields[mediaType].fields["schema"] == schema
  }

  lemma ContentIff(config: Config, fields: Object, mediaType: string)
    ensures MediaSchema(config, fields, mediaType).Ok? <==> exists schema :: OnlyContent(fields, mediaType, schema) && CanonicalSchema(config, schema).Ok?
    ensures forall schema :: OnlyContent(fields, mediaType, schema) ==> MediaSchema(config, fields, mediaType) == CanonicalSchema(config, schema)
  {
    if MediaSchema(config, fields, mediaType).Ok? {
      var media := fields["content"].fields[mediaType].fields;
      assert OnlyContent(fields, mediaType, media["schema"]);
    }
    forall schema | OnlyContent(fields, mediaType, schema) ensures MediaSchema(config, fields, mediaType) == CanonicalSchema(config, schema) {
      assert fields["content"].fields.Keys == {mediaType};
    }
  }

  /** A request body with this flag and schema. */
  ghost predicate IsBody(config: Config, value: Json, required: bool, schema: Json) {
    exists fields :: StandsFor(config, value, "requestBodies", fields) && OnlyContent(fields, "application/json", schema)
                     && (required <==> Lookup(fields, "required") == Some(Bool(true)))
  }

  lemma BodyIff(config: Config, value: Json)
    ensures ReadBody(config, value).Ok? <==> exists required, schema :: IsBody(config, value, required, schema) && CanonicalSchema(config, schema).Ok?
    ensures forall required, schema :: ReadBody(config, value).Ok? && IsBody(config, value, required, schema) ==>
              CanonicalSchema(config, schema).Ok? && ReadBody(config, value) == Ok(RequestBody(required, CanonicalSchema(config, schema).value))
  {
    forall fields ensures ResolveComponent(config, value, "requestBodies") == Ok(Obj(fields)) <==> StandsFor(config, value, "requestBodies", fields) {
      ComponentResolvesIff(config, value, "requestBodies", fields);
    }
    var resolved := ResolveComponent(config, value, "requestBodies");
    if resolved.Ok? && resolved.value.Obj? {
      var fields := resolved.value.fields;
      ContentIff(config, fields, "application/json");
      if ReadBody(config, value).Ok? {
        var schema :| OnlyContent(fields, "application/json", schema) && CanonicalSchema(config, schema).Ok?;
        assert IsBody(config, value, Lookup(fields, "required") == Some(Bool(true)), schema);
      }
    }
  }

  /** Problem responses are problem details, successful ones plain JSON. */
  ghost predicate IsResponse(config: Config, status: string, value: Json, schema: Json) {
    && |status| == 3 && '1' <= status[0] <= '5' && '0' <= status[1] <= '9' && '0' <= status[2] <= '9'
    && exists fields :: StandsFor(config, value, "responses", fields)
                        && OnlyContent(fields, if status[0] == '2' then "application/json" else "application/problem+json", schema)
  }

  lemma ResponseIff(config: Config, status: string, value: Json)
    ensures ReadResponse(config, status, value).Ok? <==> exists schema :: IsResponse(config, status, value, schema) && CanonicalSchema(config, schema).Ok?
    ensures forall schema :: ReadResponse(config, status, value).Ok? && IsResponse(config, status, value, schema) ==>
              CanonicalSchema(config, schema).Ok? && ReadResponse(config, status, value).value.schema == CanonicalSchema(config, schema).value
  {
    forall fields ensures ResolveComponent(config, value, "responses") == Ok(Obj(fields)) <==> StandsFor(config, value, "responses", fields) {
      ComponentResolvesIff(config, value, "responses", fields);
    }
    if StatusCode(status) {
      assert "2" <= status <==> status[0] == '2';
      var resolved := ResolveComponent(config, value, "responses");
      if resolved.Ok? && resolved.value.Obj? {
        var fields := resolved.value.fields;
        ContentIff(config, fields, MediaType(status));
        if ReadResponse(config, status, value).Ok? {
          var schema :| OnlyContent(fields, MediaType(status), schema) && CanonicalSchema(config, schema).Ok?;
          assert IsResponse(config, status, value, schema);
        }
      }
    }
  }

  // ---------------------------------------------------------------- whole operations

  ghost predicate GoodBody(config: Config, value: Json) {
    exists required, schema :: IsBody(config, value, required, schema) && CanonicalSchema(config, schema).Ok?
  }

  ghost predicate GoodResponse(config: Config, status: string, value: Json) {
    exists schema :: IsResponse(config, status, value, schema) && CanonicalSchema(config, schema).Ok?
  }

  ghost predicate WellFormed(config: Config, operation: Object) {
    && ("parameters" in operation ==> operation["parameters"].Arr? && GoodParameters(config, operation["parameters"].items))
    && ("requestBody" in operation ==> GoodBody(config, operation["requestBody"]))
    && "responses" in operation && operation["responses"].Obj?
    && (forall status :: status in operation["responses"].fields ==> GoodResponse(config, status, operation["responses"].fields[status]))
  }

  lemma ResponsesIff(config: Config, responses: Object)
    ensures Responses(config, Some(Obj(responses))).Ok? <==>
              forall status :: status in responses ==> GoodResponse(config, status, responses[status])
  {
    forall status | status in responses
      ensures ResponseReader(config)(status, responses[status]).Ok? <==> GoodResponse(config, status, responses[status])
    {
      ResponseIff(config, status, responses[status]);
    }
  }

  /** An operation can be compared exactly when it is well formed. */
  lemma ComparableIff(config: Config, operation: Object)
    ensures SurfaceOf(config, operation).Some? <==> WellFormed(config, operation)
  {
    SurfaceIff(config, operation);
    if "parameters" in operation && operation["parameters"].Arr? {
      ParametersIff(config, operation["parameters"].items);
    }
    if "requestBody" in operation {
      BodyIff(config, operation["requestBody"]);
    }
    if "responses" in operation && operation["responses"].Obj? {
      ResponsesIff(config, operation["responses"].fields);
    }
  }
}
