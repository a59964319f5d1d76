/** The builder that derives a strict contract from the types of an endpoint handler.

    The schema of a type is a parameter; the library that derives it is not part of this model. */
module ContractBuilder {
  import opened JsonValues
  import opened Texts
  import opened Sorting
  import opened KeyedEntries
  import opened Canonical
  import opened StrictContracts

  // ---------------------------------------------------------------- orderly listings

  predicate KeyLe(a: ParameterKey, b: ParameterKey) {
    if a.0 != b.0 then StringLe(a.0, b.0) else StringLe(a.1, b.1)
  }

  ghost predicate LinearOrder<T(!new)>(le: (T, T) -> bool) { TotalPreorder(le) && Antisymmetric(le) }

  lemma StringOrder()
    ensures LinearOrder(StringLe)
  {
    forall a, b ensures StringLe(a, b) || StringLe(b, a) { StringLeTotal(a, b); }
    forall a, b | StringLe(a, b) && StringLe(b, a) ensures a == b { StringLeTotal(a, b); }
    forall a, b, c | StringLe(a, b) && StringLe(b, c) ensures StringLe(a, c) { StringLeTransitive(a, b, c); }
  }

  lemma KeyOrder()
    ensures LinearOrder(KeyLe)
  {
    StringOrder();
    forall a, b ensures KeyLe(a, b) || KeyLe(b, a) { StringLeTotal(a.0, b.0); StringLeTotal(a.1, b.1); }
    forall a, b | KeyLe(a, b) && KeyLe(b, a) ensures a == b { StringLeTotal(a.0, b.0); StringLeTotal(a.1, b.1); }
    forall a, b, c | KeyLe(a, b) && KeyLe(b, c) ensures KeyLe(a, c) { KeyLeTransitive(a, b, c); }
  }

  lemma KeyLeTransitive(a: ParameterKey, b: ParameterKey, c: ParameterKey)
    requires KeyLe(a, b) && KeyLe(b, c)
    ensures KeyLe(a, c)
  {
    StringLeTotal(a.0, b.0);
    if a.0 != b.0 && b.0 != c.0 {
      StringLeTransitive(a.0, b.0, c.0);
    } else if a.0 == b.0 == c.0 {
      StringLeTransitive(a.1, b.1, c.1);
    }
  }

  /** The elements of a set in order, each once: how the source's ordered sets and maps iterate. */
  ghost predicate Lists<T>(le: (T, T) -> bool, elements: set<T>, s: seq<T>) {
    Sorted(le, s) && multiset(s) == multiset(elements)
  }

  ghost function Listing<T>(le: (T, T) -> bool, elements: set<T>): seq<T> {
    if elements == {} then [] else var x :| x in elements; Insert(le, x, Listing(le, elements - {x}))
  }

  lemma {:induction false} ListingLists<T(!new)>(le: (T, T) -> bool, elements: set<T>)
    requires LinearOrder(le)
    ensures Lists(le, elements, Listing(le, elements))
  {
    if elements != {} {
      var x :| x in elements && Listing(le, elements) == Insert(le, x, Listing(le, elements - {x}));
      var rest := Listing(le, elements - {x});
      ListingLists(le, elements - {x});
      InsertKeepsSorted(le, x, rest);
      InsertKeepsElements(le, x, rest);
      assert elements == (elements - {x}) + {x};
    }
  }

  method InOrder<T(==, !new)>(le: (T, T) -> bool, elements: set<T>) returns (s: seq<T>)
    requires LinearOrder(le)
    ensures s == Listing(le, elements)
  {
    s := [];
    var rest := elements;
    while rest != {}
      invariant rest <= elements && Lists(le, elements - rest, s)
    {
      var x :| x in rest;
      InsertKeepsSorted(le, x, s);
      InsertKeepsElements(le, x, s);
      s := Insert(le, x, s);
      rest := rest - {x};
      assert elements - rest == (elements - (rest + {x})) + {x};
    }
    assert elements - rest == elements;
    ListingLists(le, elements);
    ListingIsUnique(le, elements, s, Listing(le, elements));
  }

  /** There is only one such listing. */
  lemma ListingIsUnique<T(!new)>(le: (T, T) -> bool, elements: set<T>, s: seq<T>, t: seq<T>)
    requires LinearOrder(le) && Lists(le, elements, s) && Lists(le, elements, t)
    ensures s == t
  {
    SortedPermutationsAgree(le, s, t);
  }

  lemma ListingIsDistinct<T>(le: (T, T) -> bool, elements: set<T>, s: seq<T>, i: nat, j: nat)
    requires Lists(le, elements, s) && i < j < |s|
    ensures s[i] != s[j]
  {
    assert s == s[..j] + s[j..] && s[..j][i] == s[i] && s[j..][0] == s[j];
    assert multiset(s)[s[i]] == multiset(s[..j])[s[i]] + multiset(s[j..])[s[i]];
    assert multiset(elements)[s[i]] <= 1;
  }

  lemma ListingMembers<T>(le: (T, T) -> bool, elements: set<T>, s: seq<T>, x: T)
    requires Lists(le, elements, s)
    ensures x in s <==> x in elements
  {
    assert x in multiset(s) <==> x in multiset(elements);
  }

  // ---------------------------------------------------------------- the JSON it writes

  function ParameterJson(location: string, name: string, required: bool, schema: Json): Json {
    Obj(map["name" := Str(name), "in" := Str(location), "required" := Bool(required), "schema" := schema])
  }

  function ContentJson(mediaType: string, schema: Json): Json {
    Obj(map[mediaType := Obj(map["schema" := schema])])
  }

  function BodyJson(required: bool, schema: Json): Json {
    Obj(map["required" := Bool(required), "content" := ContentJson("application/json", schema)])
  }

  function ResponseJson(description: string, mediaType: string, schema: Json): Json {
    Obj(map["description" := Str(description), "content" := ContentJson(mediaType, schema)])
  }

  function Typed(name: string): Json { Obj(map["type" := Str(name)]) }

  function Strings(texts: seq<string>): Json { Arr(seq(|texts|, i requires 0 <= i < |texts| => Str(texts[i]))) }

  function DigitOf(n: nat): char
    requires n < 10
  {
    '0' + n as char
  }

  /** Decimal text. */
  function Decimal(n: nat): string {
    if n < 10 then [DigitOf(n)] else Decimal(n / 10) + [DigitOf(n % 10)]
  }

  /** The number a decimal text stands for. */
  function Number(text: string): nat {
    if text == "" || !('0' <= text[|text| - 1] <= '9') then 0
    else 10 * Number(text[..|text| - 1]) + (text[|text| - 1] - '0') as nat
  }

  lemma {:induction false} NumberOfDecimal(n: nat)
    ensures Number(Decimal(n)) == n
  {
    if n >= 10 {
      NumberOfDecimal(n / 10);
      assert Decimal(n)[..|Decimal(n)| - 1] == Decimal(n / 10);
    } else {
      assert Decimal(n)[..0] == "";
    }
  }

  function ProblemSchema(status: nat, codes: seq<string>): Json {
    Obj(map[
      "type" := Str("object"),
      "required" := Strings(["type", "title", "status", "detail", "code"]),
      "properties" := Obj(map[
        "type" := Typed("string"),
        "title" := Typed("string"),
        "status" := Obj(map["const" := Num(Decimal(status))]),
        "detail" := Typed("string"),
        "code" := Obj(map["type" := Str("string"), "enum" := Strings(codes)])]),
      "additionalProperties" := Bool(false)])
  }

  function ProblemJson(status: nat, codes: seq<string>): Json {
    ResponseJson("Known problem response.", "application/problem+json", ProblemSchema(status, codes))
  }

  /** A reference into `$defs` anywhere inside. */
  predicate MentionsDefinitions(value: Json) {
    match value
    case Obj(fields) =>
      || (Reference(value).Some? && LOCAL_PREFIX <= Reference(value).value)
      || exists k | k in fields :: MentionsDefinitions(fields[k])
    case Arr(items) => exists i | 0 <= i < |items| :: MentionsDefinitions(items[i])
    case _ => false
  }

  /** A property schema on its own: it takes the definitions it refers to along. */
  function Detached(root: Object, property: Json): Json {
    if MentionsDefinitions(property) && "$defs" in root && property.Obj? then Obj(property.fields["$defs" := root["$defs"]]) else property
  }

  /** `required` lists the name. */
  predicate Requires(root: Object, name: string) {
    match Lookup(root, "required")
    case Some(Arr(items)) => Str(name) in items
    case _ => false
  }

  function Properties(schema: Json): Object { ObjectAt(schema, "properties") }

  /** An object schema with at least one named property. */
  predicate HasProperties(schema: Json) { schema.Obj? && Properties(schema) != map[] }

  function ParameterFrom(location: string, requiredForAll: bool, schema: Json, name: string): Json
    requires HasProperties(schema) && name in Properties(schema)
  {
    ParameterJson(location, name, requiredForAll || Requires(schema.fields, name), Detached(schema.fields, Properties(schema)[name]))
  }

  function Keyed(location: string, names: set<string>): set<ParameterKey> { set name | name in names :: (location, name) }

  /** The parameters some of the properties declare. */
  function Declared(location: string, requiredForAll: bool, schema: Json, names: set<string>): map<ParameterKey, Json>
    requires HasProperties(schema) && names <= Properties(schema).Keys
  {
    map key | key in Keyed(location, names) :: ParameterFrom(location, requiredForAll, schema, key.1)
  }

  lemma DeclaredGrows(before: map<ParameterKey, Json>, location: string, requiredForAll: bool, schema: Json, names: set<string>, name: string)
    requires HasProperties(schema) && names <= Properties(schema).Keys && name in Properties(schema)
    ensures (before + Declared(location, requiredForAll, schema, names))[(location, name) := ParameterFrom(location, requiredForAll, schema, name)]
            == before + Declared(location, requiredForAll, schema, names + {name})
  {
    assert Keyed(location, names + {name}) == Keyed(location, names) + {(location, name)};
  }

  function CodesAt(problems: map<nat, set<string>>, status: nat): set<string> {
    if status in problems then problems[status] else {}
  }

  // ---------------------------------------------------------------- what a builder has gathered

  function SchemaIn(value: Json): Json { if Get(value, "schema").Some? then Get(value, "schema").value else Null }

  predicate Flag(value: Json) { Get(value, "required") == Some(Bool(true)) }

  /** A declaration for this key; path parameters are required. */
  predicate DeclaresParameter(key: ParameterKey, value: Json) {
    && (key.0 == "path" || key.0 == "query")
    && value == ParameterJson(key.0, key.1, Flag(value), SchemaIn(value))
    && (key.0 == "path" ==> Flag(value))
  }

  function BodySchema(value: Json): Json {
    match Get(value, "content")
    case None => Null
    case Some(content) => match Get(content, "application/json") case None => Null case Some(media) => SchemaIn(media)
  }

  predicate DeclaresBody(value: Json) { value == BodyJson(Flag(value), BodySchema(value)) }

  datatype Gathered = Gathered(
    parameters: map<ParameterKey, Json>, requestBody: Option<Json>, success: Option<(nat, Json)>, problems: map<nat, set<string>>)

  /** What every builder call keeps. */
  ghost predicate WellDeclared(g: Gathered) {
    && (forall key :: key in g.parameters ==> DeclaresParameter(key, g.parameters[key]))
    && (g.requestBody.Some? ==> DeclaresBody(g.requestBody.value))
    && (g.success.Some? ==> 200 <= g.success.value.0 <= 299)
    && (forall status :: status in g.problems ==> 400 <= status <= 599)
  }

  lemma ParameterFromDeclares(location: string, requiredForAll: bool, schema: Json, name: string)
    requires HasProperties(schema) && name in Properties(schema)
    requires (location == "path" || location == "query") && (location == "path" ==> requiredForAll)
    ensures DeclaresParameter((location, name), ParameterFrom(location, requiredForAll, schema, name))
  {
    var value := ParameterFrom(location, requiredForAll, schema, name);
    assert SchemaIn(value) == Detached(schema.fields, Properties(schema)[name]);
    assert Flag(value) == (requiredForAll || Requires(schema.fields, name));
  }

  lemma DeclaringKeepsWellDeclared(g: Gathered, location: string, requiredForAll: bool, schema: Json)
    requires WellDeclared(g) && HasProperties(schema)
    requires (location == "path" || location == "query") && (location == "path" ==> requiredForAll)
    ensures WellDeclared(g.(parameters := g.parameters + Declared(location, requiredForAll, schema, Properties(schema).Keys)))
  {
    forall name | name in Properties(schema) ensures DeclaresParameter((location, name), ParameterFrom(location, requiredForAll, schema, name)) {
      ParameterFromDeclares(location, requiredForAll, schema, name);
    }
  }

  lemma BodyIsDeclared(required: bool, schema: Json)
    ensures DeclaresBody(BodyJson(required, schema))
  {
    var value := BodyJson(required, schema);
    assert Flag(value) == required && BodySchema(value) == schema;
  }

  function InKeyOrder(m: map<ParameterKey, Json>, keys: seq<ParameterKey>): seq<Json>
    requires forall i :: 0 <= i < |keys| ==> keys[i] in m
  {
    seq(|keys|, i requires 0 <= i < |keys| => m[keys[i]])
  }

  lemma KeysAreListed(m: map<ParameterKey, Json>)
    ensures var keys := Listing(KeyLe, m.Keys);
            && Lists(KeyLe, m.Keys, keys)
            && (forall i :: 0 <= i < |keys| ==> keys[i] in m)
            && (forall key :: key in m ==> key in keys)
            && (forall i, j :: 0 <= i < j < |keys| ==> keys[i] != keys[j])
  {
    KeyOrder();
    ListingLists(KeyLe, m.Keys);
    var keys := Listing(KeyLe, m.Keys);
    forall i | 0 <= i < |keys| ensures keys[i] in m { ListingMembers(KeyLe, m.Keys, keys, keys[i]); }
    forall key | key in m ensures key in keys { ListingMembers(KeyLe, m.Keys, keys, key); }
    forall i, j | 0 <= i < j < |keys| ensures keys[i] != keys[j] { ListingIsDistinct(KeyLe, m.Keys, keys, i, j); }
  }

  ghost function OrderedParameters(g: Gathered): seq<Json> {
    KeysAreListed(g.parameters);
    InKeyOrder(g.parameters, Listing(KeyLe, g.parameters.Keys))
  }

  /** The status texts of the success response and of some problems. */
  ghost function StatusTexts(g: Gathered, statuses: set<nat>): set<string>
    requires g.success.Some?
  {
    {Decimal(g.success.value.0)} + set status | status in statuses :: Decimal(status)
  }

  ghost function Statuses(g: Gathered): set<string>
    requires g.success.Some?
  {
    StatusTexts(g, g.problems.Keys)
  }

  /** The response under one of them. */
  ghost function ResponseAt(g: Gathered, text: string): Json
    requires g.success.Some?
  {
    if text == Decimal(g.success.value.0) then ResponseJson("Successful response.", "application/json", g.success.value.1)
    else ProblemJson(Number(text), Listing(StringLe, CodesAt(g.problems, Number(text))))
  }

  ghost function ResponsesUnder(g: Gathered, texts: set<string>): Object
    requires g.success.Some?
  {
    map text | text in texts :: ResponseAt(g, text)
  }

  ghost function ResponsesOf(g: Gathered): Object
    requires g.success.Some?
  {
    ResponsesUnder(g, Statuses(g))
  }

  function OperationWith(parameters: seq<Json>, requestBody: Option<Json>, responses: Object): Object {
    var withParameters: Object := if parameters == [] then map[] else map["parameters" := Arr(parameters)];
    var withBody := if requestBody.None? then withParameters else withParameters["requestBody" := requestBody.value];
    withBody["responses" := Obj(responses)]
  }

  ghost function OperationOf(g: Gathered): Object
    requires g.success.Some?
  {
    OperationWith(OrderedParameters(g), g.requestBody, ResponsesOf(g))
  }

  function FragmentJson(routeId: string, verb: string, path: string, operation: Object): Json {
    Obj(map["route_id" := Str(routeId), "method" := Str(verb), "path" := Str(path), "operation" := Obj(operation)])
  }

  // ---------------------------------------------------------------- the builder

  class OpenApiContract {
    const routeId: string
    const verb: string
    const path: string
    var parameters: map<ParameterKey, Json>
    var requestBody: Option<Json>
    var success: Option<(nat, Json)>
    var problems: map<nat, set<string>>

    ghost function State(): Gathered reads this { Gathered(parameters, requestBody, success, problems) }

    ghost predicate Valid() reads this { WellDeclared(State()) }

    constructor (routeId: string, verb: string, path: string)
      ensures Valid() && this.routeId == routeId && this.verb == verb && this.path == path
      ensures parameters == map[] && requestBody == None && success == None && problems == map[]
    {
      this.routeId, this.verb, this.path := routeId, verb, path;
      parameters, requestBody, success, problems := map[], None, None, map[];
    }

    /** `path` and `query`: one parameter per property of an object schema. A failing call gives
        the builder up, so nothing is said about it then. */
    method AddParameters(location: string, requiredForAll: bool, schema: Json) returns (ok: bool)
      requires Valid() && (location == "path" || location == "query") && (location == "path" ==> requiredForAll)
      modifies this`parameters
      ensures ok <==> HasProperties(schema) && forall name :: name in Properties(schema) ==> (location, name) !in old(parameters)
      ensures ok ==> Valid() && parameters == old(parameters) + Declared(location, requiredForAll, schema, Properties(schema).Keys)
    {
      if !HasProperties(schema) {
        return false;
      }
      var properties := Properties(schema);
      var rest := properties.Keys;
      ghost var names: set<string> := {};
      assert parameters == old(parameters) + Declared(location, requiredForAll, schema, names);
      while rest != {}
        invariant rest <= properties.Keys && names == properties.Keys - rest
        invariant forall name :: name in names ==> (location, name) !in old(parameters)
        invariant parameters == old(parameters) + Declared(location, requiredForAll, schema, names)
        decreases rest
      {
        var name :| name in rest;
        if (location, name) in parameters {
          assert (location, name) !in Keyed(location, names);
          return false;
        }
        DeclaredGrows(old(parameters), location, requiredForAll, schema, names, name);
        parameters := parameters[(location, name) := ParameterFrom(location, requiredForAll, schema, name)];
        names := names + {name};
        rest := rest - {name};
      }
      assert names == properties.Keys;
      DeclaringKeepsWellDeclared(old(State()), location, requiredForAll, schema);
      ok := true;
    }

    /** `json_body` and `optional_json_body`. */
    method SetJsonBody(required: bool, schema: Json) returns (ok: bool)
      requires Valid()
      modifies this`requestBody
      ensures ok <==> old(requestBody).None?
      ensures Valid() && requestBody == if ok then Some(BodyJson(required, schema)) else old(requestBody)
    {
      ok := requestBody.None?;
      BodyIsDeclared(required, schema);
      if ok {
        requestBody := Some(BodyJson(required, schema));
      }
    }

    /** `success_json`. */
    method SuccessJson(status: nat, schema: Json) returns (ok: bool)
      requires Valid()
      modifies this`success
      ensures ok <==> 200 <= status <= 299 && old(success).None?
      ensures Valid() && (ok ==> success == Some((status, schema)))
    {
      if !(200 <= status <= 299) {
        return false;
      }
      ok := success.None?;
      success := Some((status, schema));
    }

    /** `known_problem`: codes accumulate per status. */
    method KnownProblem(status: nat, code: string) returns (ok: bool)
      requires Valid()
      modifies this`problems
      ensures ok <==> 400 <= status <= 599 && !Blank(code)
      ensures Valid()
      ensures problems == if ok then old(problems)[status := CodesAt(old(problems), status) + {code}] else old(problems)
    {
      if !(400 <= status <= 599) || Blank(code) {
        return false;
      }
      problems := problems[status := CodesAt(problems, status) + {code}];
      ok := true;
    }

    /** `build`. */
    method Build() returns (r: Result<Json>)
      ensures r.Err? <==> success.None? || success.value.0 in problems
      ensures r.Ok? ==> r.value == FragmentJson(routeId, verb, path, OperationOf(State()))
      ensures Valid() ==> (r.Ok? <==> success.Some?)
    {
      if success.None? {
        return Err;
      }
      KeyOrder();
      KeysAreListed(parameters);
      var keys := InOrder(KeyLe, parameters.Keys);
      var ordered := InKeyOrder(parameters, keys);
      var responses := CollectProblems(Gathered(parameters, requestBody, success, problems));
      if responses.Err? {
        return Err;
      }
      r := Ok(FragmentJson(routeId, verb, path, OperationWith(ordered, requestBody, responses.value)));
    }
  }

  /** The loop of `build` over the known problems. */
  method CollectProblems(g: Gathered) returns (r: Result<Object>)
    requires g.success.Some?
    ensures r == if g.success.value.0 in g.problems then Err else Ok(ResponsesOf(g))
  {
    var (successStatus, successSchema) := g.success.value;
    StringOrder();
    var responses: Object := map[Decimal(successStatus) := ResponseJson("Successful response.", "application/json", successSchema)];
    var rest := g.problems.Keys;
    ghost var seen: set<nat> := {};
    assert StatusTexts(g, {}) == {Decimal(successStatus)};
    while rest != {}
      invariant rest <= g.problems.Keys && seen == g.problems.Keys - rest
      invariant responses == ResponsesUnder(g, StatusTexts(g, seen))
      invariant successStatus !in seen
      decreases rest
    {
      var status :| status in rest;
      if status == successStatus {
        return Err;
      }
      var codes := InOrder(StringLe, g.problems[status]);
      ProblemAdds(g, seen, status);
      responses := responses[Decimal(status) := ProblemJson(status, codes)];
      seen := seen + {status};
      rest := rest - {status};
    }
    assert seen == g.problems.Keys;
    r := Ok(responses);
  }

  lemma {:induction false} ProblemAdds(g: Gathered, seen: set<nat>, status: nat)
    requires g.success.Some? && status in g.problems && status != g.success.value.0
    ensures ResponsesUnder(g, StatusTexts(g, seen))[Decimal(status) := ProblemJson(status, Listing(StringLe, g.problems[status]))]
            == ResponsesUnder(g, StatusTexts(g, seen + {status}))
  {
    NumberOfDecimal(status);
    NumberOfDecimal(g.success.value.0);
    assert StatusTexts(g, seen + {status}) == StatusTexts(g, seen) + {Decimal(status)};
  }

  // ---------------------------------------------------------------- a fragment against its own operation

  ghost predicate SchemasCanonicalise(config: Config, g: Gathered)
    requires g.success.Some?
  {
    && (forall key :: key in g.parameters ==> Canonicalises(config, g.parameters)(key))
    && (g.requestBody.Some? ==> CanonicalSchema(config, BodySchema(g.requestBody.value)).Ok?)
    && CanonicalSchema(config, g.success.value.1).Ok?
  }

  lemma DeclaredParameterReads(config: Config, key: ParameterKey, value: Json)
    requires DeclaresParameter(key, value)
    ensures var schema := CanonicalSchema(config, SchemaIn(value));
            ReadParameter(config, value) == if schema.Ok? then Entry(key, Parameter(Flag(value), schema.value)) else Bad
  {
    assert Reference(value).None?;
  }

  lemma ReadingAt(config: Config, g: Gathered, i: nat)
    requires WellDeclared(g) && i < |Listing(KeyLe, g.parameters.Keys)|
    ensures |Readings(config, OrderedParameters(g))| == |Listing(KeyLe, g.parameters.Keys)|
    ensures var key := Listing(KeyLe, g.parameters.Keys)[i];
            var reading := Readings(config, OrderedParameters(g))[i];
            && key in g.parameters
            && (if CanonicalSchema(config, SchemaIn(g.parameters[key])).Ok? then reading.Entry? && reading.key == key else reading.Bad?)
  {
    KeysAreListed(g.parameters);
    var key := Listing(KeyLe, g.parameters.Keys)[i];
    DeclaredParameterReads(config, key, g.parameters[key]);
    var ordered := OrderedParameters(g);
    assert ordered[i] == g.parameters[key];
    assert Readings(config, ordered)[i] == ReadParameter(config, ordered[i]);
  }

  /** Distinct keys whose readings are entries exactly when `good` collect exactly when all are good. */
  lemma KeyedReadingsCollect(keys: seq<ParameterKey>, readings: seq<Entry<ParameterKey, Parameter>>, good: ParameterKey -> bool)
    requires |keys| == |readings|
    requires forall i, j :: 0 <= i < j < |keys| ==> keys[i] != keys[j]
    requires forall i :: 0 <= i < |keys| ==> if good(keys[i]) then readings[i].Entry? && readings[i].key == keys[i] else readings[i].Bad?
    ensures Collect(readings).Ok? <==> forall i :: 0 <= i < |keys| ==> good(keys[i])
  {
    CollectSucceedsIff(readings);
  }

  function Canonicalises(config: Config, parameters: map<ParameterKey, Json>): ParameterKey -> bool {
    key => key in parameters && CanonicalSchema(config, SchemaIn(parameters[key])).Ok?
  }

  lemma OrderedParametersRead(config: Config, g: Gathered)
    requires WellDeclared(g)
    ensures Collect(Readings(config, OrderedParameters(g))).Ok? <==> forall key :: key in g.parameters ==> Canonicalises(config, g.parameters)(key)
  {
    var keys := Listing(KeyLe, g.parameters.Keys);
    var good := Canonicalises(config, g.parameters);
    KeysAreListed(g.parameters);
    var readings := Readings(config, OrderedParameters(g));
    forall i | 0 <= i < |keys|
      ensures if good(keys[i]) then readings[i].Entry? && readings[i].key == keys[i] else readings[i].Bad?
    {
      ReadingAt(config, g, i);
    }
    KeyedReadingsCollect(keys, readings, good);
  }

  lemma ContentReads(config: Config, fields: Object, mediaType: string, schema: Json)
    requires Lookup(fields, "content") == Some(ContentJson(mediaType, schema))
    ensures MediaSchema(config, fields, mediaType) == CanonicalSchema(config, schema)
  {
    var content := ContentJson(mediaType, schema).fields;
    assert content.Keys == {mediaType};
  }

  lemma DeclaredBodyReads(config: Config, value: Json)
    requires DeclaresBody(value)
    ensures ReadBody(config, value).Ok? <==> CanonicalSchema(config, BodySchema(value)).Ok?
  {
    assert Reference(value).None?;
    ContentReads(config, value.fields, "application/json", BodySchema(value));
  }

  lemma StringsAreReferenceFree(texts: seq<string>)
    ensures ReferenceFree(Strings(texts))
  {
  }

  /** The problem schema refers to nothing, so it always has a canonical form. */
  lemma ProblemCanonicalises(config: Config, status: nat, codes: seq<string>)
    ensures CanonicalSchema(config, ProblemSchema(status, codes)).Ok?
  {
    var schema := ProblemSchema(status, codes);
    StringsAreReferenceFree(codes);
    StringsAreReferenceFree(["type", "title", "status", "detail", "code"]);
    PropertiesAreReferenceFree(status, codes);
    assert ReferenceFree(schema);
    ReferenceFreeCanonicalises(config, schema, schema, {});
  }

  lemma PropertiesAreReferenceFree(status: nat, codes: seq<string>)
    ensures ReferenceFree(ProblemSchema(status, codes).fields["properties"])
  {
    StringsAreReferenceFree(codes);
    assert ReferenceFree(Typed("string"));
    assert ReferenceFree(Obj(map["const" := Num(Decimal(status))]));
    assert ReferenceFree(Obj(map["type" := Str("string"), "enum" := Strings(codes)]));
  }

  lemma DecimalStatus(status: nat)
    requires 100 <= status <= 599
    ensures StatusCode(Decimal(status))
    ensures "2" <= Decimal(status) <==> 200 <= status <= 299
  {
    var tens := status / 10;
    var hundreds := tens / 10;
    assert Decimal(hundreds) == [DigitOf(hundreds)];
    assert Decimal(tens) == [DigitOf(hundreds), DigitOf(tens % 10)];
    assert Decimal(status) == [DigitOf(hundreds), DigitOf(tens % 10), DigitOf(status % 10)];
  }

  /** The response keys a contract may use are exactly the texts of the numbers 100 to 599. */
  lemma StatusCodeIff(text: string)
    ensures StatusCode(text) <==> exists n :: 100 <= n <= 599 && Decimal(n) == text
  {
    if StatusCode(text) {
      var a, b, c := (text[0] - '0') as nat, (text[1] - '0') as nat, (text[2] - '0') as nat;
      var n := 100 * a + 10 * b + c;
      assert n / 10 == 10 * a + b && n / 100 == a;
      assert Decimal(n / 100) == [DigitOf(a)] && Decimal(n / 10) == [DigitOf(a), DigitOf(b)];
      assert Decimal(n) == text;
    }
    forall n | 100 <= n <= 599 && Decimal(n) == text ensures StatusCode(text) { DecimalStatus(n); }
  }

  lemma SuccessReads(config: Config, status: nat, schema: Json)
    requires 200 <= status <= 299
    ensures ReadResponse(config, Decimal(status), ResponseJson("Successful response.", "application/json", schema)).Ok? <==>
              CanonicalSchema(config, schema).Ok?
  {
    var value := ResponseJson("Successful response.", "application/json", schema);
    assert Reference(value).None?;
    DecimalStatus(status);
    ContentReads(config, value.fields, "application/json", schema);
  }

  lemma ProblemReads(config: Config, status: nat, codes: seq<string>)
    requires 400 <= status <= 599
    ensures ReadResponse(config, Decimal(status), ProblemJson(status, codes)).Ok?
  {
    var value := ProblemJson(status, codes);
    assert Reference(value).None?;
    DecimalStatus(status);
    ContentReads(config, value.fields, "application/problem+json", ProblemSchema(status, codes));
    ProblemCanonicalises(config, status, codes);
  }

  lemma ResponseReads(config: Config, g: Gathered, text: string)
    requires WellDeclared(g) && g.success.Some? && text in Statuses(g)
    ensures ReadResponse(config, text, ResponseAt(g, text)).Ok? <==>
              (text == Decimal(g.success.value.0) ==> CanonicalSchema(config, g.success.value.1).Ok?)
  {
    if text == Decimal(g.success.value.0) {
      SuccessReads(config, g.success.value.0, g.success.value.1);
    } else {
      var status :| status in g.problems && Decimal(status) == text;
      NumberOfDecimal(status);
      ProblemReads(config, status, Listing(StringLe, CodesAt(g.problems, status)));
    }
  }

  lemma OwnResponsesRead(config: Config, g: Gathered)
    requires WellDeclared(g) && g.success.Some?
    ensures Responses(config, Some(Obj(ResponsesOf(g)))).Ok? <==> CanonicalSchema(config, g.success.value.1).Ok?
  {
    forall text | text in Statuses(g)
      ensures ReadResponse(config, text, ResponsesOf(g)[text]).Ok? <==>
                (text == Decimal(g.success.value.0) ==> CanonicalSchema(config, g.success.value.1).Ok?)
    {
      ResponseReads(config, g, text);
    }
    assert Decimal(g.success.value.0) in Statuses(g);
  }

  lemma OwnBodyReads(config: Config, g: Gathered)
    requires WellDeclared(g) && g.success.Some?
    ensures Lookup(OperationOf(g), "requestBody") == g.requestBody
    ensures g.requestBody.Some? ==> (ReadBody(config, g.requestBody.value).Ok? <==> CanonicalSchema(config, BodySchema(g.requestBody.value)).Ok?)
  {
    if g.requestBody.Some? {
      DeclaredBodyReads(config, g.requestBody.value);
    }
  }

  lemma OwnSurfaceIff(config: Config, g: Gathered)
    requires WellDeclared(g) && g.success.Some?
    ensures SurfaceOf(config, OperationOf(g)).Some? <==> SchemasCanonicalise(config, g)
  {
    var operation := OperationOf(g);
    OrderedParametersRead(config, g);
    OwnResponsesRead(config, g);
    OwnBodyReads(config, g);
    NoParameters(config, g);
    SurfaceIff(config, operation);
    assert Lookup(operation, "responses") == Some(Obj(ResponsesOf(g)));
  }

  /** A built fragment validates against its own operation exactly when the schemas it was derived
      from canonicalise; its problem responses never stand in the way. */
  lemma {:induction false} FragmentValidatesItselfIff(config: Config, routeId: string, verb: string, path: string, g: Gathered)
    requires WellDeclared(g) && g.success.Some?
    ensures var operation := OperationOf(g);
            Validates(config, routeId, verb, path, operation, FragmentJson(routeId, verb, path, operation)) <==> SchemasCanonicalise(config, g)
  {
    var operation := OperationOf(g);
    FragmentCarriesOperation(config, routeId, verb, path, operation);
    AcceptsIffSameSurface(config, operation, operation);
    OwnSurfaceIff(config, g);
  }

  lemma {:induction false} FragmentCarriesOperation(config: Config, routeId: string, verb: string, path: string, operation: Object)
    ensures Validates(config, routeId, verb, path, operation, FragmentJson(routeId, verb, path, operation)) <==> Accepts(config, operation, operation)
  {
    var fragment := FragmentJson(routeId, verb, path, operation);
    assert Get(fragment, "operation") == Some(Obj(operation));
  }

  /** Leaving an empty parameters array out makes no difference. */
  lemma NoParameters(config: Config, g: Gathered)
    requires g.success.Some?
    ensures Parameters(config, Lookup(OperationOf(g), "parameters")) == Collect(Readings(config, OrderedParameters(g)))
  {
    if OrderedParameters(g) == [] {
      assert Readings(config, []) == [];
    }
  }

  // ---------------------------------------------------------------- what a fragment says

  /** The value under a chain of members. */
  function Under(value: Json, keys: seq<string>): Option<Json>
    decreases |keys|
  {
    if keys == [] then Some(value)
    else match Get(value, keys[0]) case None => None case Some(next) => Under(next, keys[1..])
  }

  /** An object schema with at least one named property. */
  lemma HasPropertiesIff(schema: Json)
    ensures HasProperties(schema) <==>
              schema.Obj? && "properties" in schema.fields && schema.fields["properties"].Obj? && exists name :: name in schema.fields["properties"].fields
  {
    if HasProperties(schema) {
      assert Properties(schema).Keys != {};
      var name :| name in Properties(schema);
    }
  }

  /** A derived parameter names its property and location; it is required if all are, or if the type lists
      it among its required properties. */
  lemma DerivedParameterIs(location: string, requiredForAll: bool, schema: Json, name: string)
    requires HasProperties(schema) && name in Properties(schema)
    ensures var value := ParameterFrom(location, requiredForAll, schema, name);
            && Get(value, "name") == Some(Str(name)) && Get(value, "in") == Some(Str(location))
            && (Get(value, "required") == Some(Bool(true)) <==>
                  || requiredForAll
                  || ("required" in schema.fields && schema.fields["required"].Arr? && Str(name) in schema.fields["required"].items))
            && (Get(value, "required") == Some(Bool(true)) || Get(value, "required") == Some(Bool(false)))
  {
  }

  /** A body carries its flag, and its type's schema as JSON. */
  lemma DerivedBodyIs(required: bool, schema: Json)
    ensures Get(BodyJson(required, schema), "required") == Some(Bool(required))
    ensures Under(BodyJson(required, schema), ["content", "application/json", "schema"]) == Some(schema)
  {
    var keys := ["content", "application/json", "schema"];
    assert keys[1..] == ["application/json", "schema"] && keys[1..][1..] == ["schema"] && keys[1..][1..][1..] == [];
    var content := ContentJson("application/json", schema);
    assert Get(BodyJson(required, schema), "content") == Some(content);
    var media := Obj(map["schema" := schema]);
    assert Get(content, "application/json") == Some(media) && Get(media, "schema") == Some(schema);
  }

  /** The codes in order, each once, as JSON strings. */
  ghost predicate ListsCodes(items: seq<Json>, codes: set<string>) {
    && (forall i :: 0 <= i < |items| ==> items[i].Str? && items[i].text in codes)
    && (forall code :: code in codes ==> Str(code) in items)
    && (forall i, j :: 0 <= i < j < |items| ==> items[i] != items[j])
  }

  ghost predicate EnumeratesCodes(schema: Json, codes: set<string>) {
    schema.Obj? && "enum" in schema.fields && schema.fields["enum"].Arr? && ListsCodes(schema.fields["enum"].items, codes)
  }

  lemma StringsListCodes(codes: set<string>)
    ensures ListsCodes(Strings(Listing(StringLe, codes)).items, codes)
  {
    StringOrder();
    ListingLists(StringLe, codes);
    var texts := Listing(StringLe, codes);
    var items := Strings(texts).items;
    forall i | 0 <= i < |items| ensures items[i].Str? && items[i].text in codes { ListingMembers(StringLe, codes, texts, texts[i]); }
    forall code | code in codes ensures Str(code) in items {
      ListingMembers(StringLe, codes, texts, code);
      var i :| 0 <= i < |texts| && texts[i] == code;
      assert items[i] == Str(code);
    }
    forall i, j | 0 <= i < j < |items| ensures items[i] != items[j] { ListingIsDistinct(StringLe, codes, texts, i, j); }
  }

  /** A problem response is an object of exactly the five problem members, with its status as a constant
      and the codes declared for that status, each once. */
  lemma ProblemSays(status: nat, codes: set<string>)
    ensures var schema := ProblemSchema(status, Listing(StringLe, codes));
            && Get(schema, "type") == Some(Str("object")) && Get(schema, "additionalProperties") == Some(Bool(false))
            && Get(schema, "required") == Some(Arr([Str("type"), Str("title"), Str("status"), Str("detail"), Str("code")]))
            && Get(schema, "properties").Some? && PropertiesSay(Get(schema, "properties").value, status, codes)
  {
    var texts := Listing(StringLe, codes);
    ProblemPropertiesSay(status, codes, texts);
    assert Strings(["type", "title", "status", "detail", "code"]).items == [Str("type"), Str("title"), Str("status"), Str("detail"), Str("code")];
  }

  ghost predicate PropertiesSay(properties: Json, status: nat, codes: set<string>) {
    && properties.Obj? && properties.fields.Keys == {"type", "title", "status", "detail", "code"}
    && (forall name :: name in {"type", "title", "detail"} ==> properties.fields[name] == Obj(map["type" := Str("string")]))
    && properties.fields["status"] == Obj(map["const" := Num(Decimal(status))])
    && Get(properties.fields["code"], "type") == Some(Str("string"))
    && EnumeratesCodes(properties.fields["code"], codes)
  }

  lemma ProblemPropertiesSay(status: nat, codes: set<string>, texts: seq<string>)
    requires texts == Listing(StringLe, codes)
    ensures PropertiesSay(ProblemSchema(status, texts).fields["properties"], status, codes)
  {
    StringsListCodes(codes);
    var code := Obj(map["type" := Str("string"), "enum" := Strings(texts)]);
    assert EnumeratesCodes(code, codes);
    var properties := ProblemSchema(status, texts).fields["properties"];
    assert properties.fields["code"] == code;
  }

  /** Where the built operation says so: the success response under its status, and a problem response
      under each status that was declared. */
  lemma BuiltResponsesSay(g: Gathered, status: nat)
    requires WellDeclared(g) && g.success.Some?
    ensures Decimal(status) in ResponsesOf(g) <==> status == g.success.value.0 || status in g.problems
    ensures status == g.success.value.0 ==>
              ResponsesOf(g)[Decimal(status)] ==
                Obj(map["description" := Str("Successful response."),
                        "content" := Obj(map["application/json" := Obj(map["schema" := g.success.value.1])])])
    ensures status in g.problems ==>
              ResponsesOf(g)[Decimal(status)] ==
                Obj(map["description" := Str("Known problem response."),
                        "content" := Obj(map["application/problem+json" :=
                          Obj(map["schema" := ProblemSchema(status, Listing(StringLe, g.problems[status]))])])])
  {
    NumberOfDecimal(status);
    NumberOfDecimal(g.success.value.0);
    forall other | other in g.problems && Decimal(other) == Decimal(status) ensures other == status { NumberOfDecimal(other); }
  }

  // ---------------------------------------------------------------- mentioning definitions

  /** A member or an element. */
  datatype Turn = Member(key: string) | Element(index: nat)

  function Inside(value: Json, way: seq<Turn>): Option<Json>
    decreases |way|
  {
    if way == [] then Some(value)
    else match way[0]
      case Member(key) => (match Get(value, key) case None => None case Some(next) => Inside(next, way[1..]))
      case Element(index) => if value.Arr? && index < |value.items| then Inside(value.items[index], way[1..]) else None
  }

  ghost predicate RefersLocally(value: Json) {
    value.Obj? && "$ref" in value.fields && exists name :: value.fields["$ref"] == Str("#/$defs/" + name)
  }

  /** A schema mentions definitions exactly when some object inside it refers to `#/$defs/` and a name. */
  lemma {:induction false} MentionsIff(value: Json)
    ensures MentionsDefinitions(value) <==> exists way :: Inside(value, way).Some? && RefersLocally(Inside(value, way).value)
    decreases value
  {
    if MentionsDefinitions(value) {
      var way := MentionsAt(value);
    }
    if way :| Inside(value, way).Some? && RefersLocally(Inside(value, way).value) {
      MentionedInside(value, way);
    }
  }

  lemma RefersLocallyIff(value: Json)
    ensures RefersLocally(value) <==> Reference(value).Some? && LOCAL_PREFIX <= Reference(value).value
  {
    if Reference(value).Some? && LOCAL_PREFIX <= Reference(value).value {
      var text := Reference(value).value;
      assert text == "#/$defs/" + text[|LOCAL_PREFIX|..];
    }
  }

  lemma {:induction false} MentionsAt(value: Json) returns (way: seq<Turn>)
    requires MentionsDefinitions(value)
    ensures Inside(value, way).Some? && RefersLocally(Inside(value, way).value)
    decreases value
  {
    RefersLocallyIff(value);
    if RefersLocally(value) {
      way := [];
    } else if value.Obj? {
      var k :| k in value.fields && MentionsDefinitions(value.fields[k]);
      var rest := MentionsAt(value.fields[k]);
      way := [Member(k)] + rest;
      assert way[1..] == rest;
    } else {
      var i :| 0 <= i < |value.items| && MentionsDefinitions(value.items[i]);
      var rest := MentionsAt(value.items[i]);
      way := [Element(i)] + rest;
      assert way[1..] == rest;
    }
  }

  lemma {:induction false} MentionedInside(value: Json, way: seq<Turn>)
    requires Inside(value, way).Some? && RefersLocally(Inside(value, way).value)
    ensures MentionsDefinitions(value)
    decreases |way|
  {
    RefersLocallyIff(value);
    if way != [] {
      match way[0]
      case Member(key) => MentionedInside(value.fields[key], way[1..]);
      case Element(index) => MentionedInside(value.items[index], way[1..]);
    }
  }
}
