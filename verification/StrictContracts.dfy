/** Validation of a generated strict contract against an authored operation. */
module StrictContracts {
  import opened JsonValues
  import opened Sorting
  import opened KeyedEntries
  import opened Canonical

  type Object = map<string, Json>

  datatype Parameter = Parameter(required: bool, schema: Json)
  datatype RequestBody = RequestBody(required: bool, schema: Json)
  datatype Response = Response(mediaType: string, schema: Json)

  /** Location and name. */
  type ParameterKey = (string, string)

  function Lookup(fields: Object, key: string): Option<Json> {
    if key in fields then Some(fields[key]) else None
  }

  function AsObject(value: Option<Json>): Option<Object> {
    match value case Some(Obj(fields)) => Some(fields) case _ => None
  }

  function AsString(value: Option<Json>): Option<string> {
    match value case Some(Str(text)) => Some(text) case _ => None
  }

  function AsBool(value: Option<Json>): Option<bool> {
    match value case Some(Bool(truth)) => Some(truth) case _ => None
  }

  /** `resolve_component`: one step through `#/components/<section>/`; the target is not resolved further. */
  function ResolveComponent(config: Config, value: Json, section: string): Result<Json> {
    match Reference(value)
    case None => Ok(value)
    case Some(reference) =>
      var prefix := "#/components/" + section + "/";
      if !(prefix <= reference) then Err
      else
        var name := reference[|prefix|..];
        var components := ObjectAt(Obj(config.components), section);
        if name == "" || '/' in name || name !in components then Err else Ok(components[name])
  }

  // ---------------------------------------------------------------- parameters

  /** Absent or default serialisation settings. */
  predicate DefaultSerialization(fields: Object, location: string) {
    var style, explode := AsString(Lookup(fields, "style")), AsBool(Lookup(fields, "explode"));
    && (style.Some? ==> style.value == if location == "path" then "simple" else "form")
    && (explode.Some? ==> explode.value == (location == "query"))
    && AsBool(Lookup(fields, "allowReserved")) != Some(true)
  }

  /** What one element of a `parameters` array declares; header and cookie parameters are skipped. */
  function ReadParameter(config: Config, value: Json): Entry<ParameterKey, Parameter> {
    match ResolveComponent(config, value, "parameters")
    case Ok(Obj(fields)) =>
      (match AsString(Lookup(fields, "in"))
       case None => Bad
       case Some(location) =>
         if location != "path" && location != "query" then Skip
         else
           var name, required := AsString(Lookup(fields, "name")), AsBool(Lookup(fields, "required"));
           if name.None? || required.None? || (location == "path" && !required.value) || !DefaultSerialization(fields, location)
              || "schema" !in fields then Bad
           else match CanonicalSchema(config, fields["schema"])
             case Err => Bad
             case Ok(schema) => Entry((location, name.value), Parameter(required.value, schema)))
    case _ => Bad
  }

  function Reader(config: Config): Json -> Entry<ParameterKey, Parameter> { value => ReadParameter(config, value) }

  function Readings(config: Config, values: seq<Json>): seq<Entry<ParameterKey, Parameter>> { Map(Reader(config), values) }

  function Parameters(config: Config, value: Option<Json>): Result<map<ParameterKey, Parameter>> {
    match value
    case None => Ok(map[])
    case Some(Arr(values)) => Collect(Readings(config, values))
    case _ => Err
  }

  /** `parameter_map`. */
  method ParameterMap(config: Config, value: Option<Json>) returns (r: Result<map<ParameterKey, Parameter>>)
    ensures r == Parameters(config, value)
  {
    if value.None? {
      return Ok(map[]);
    }
    if !value.value.Arr? {
      return Err;
    }
    var values := value.value.items;
    var parameters: map<ParameterKey, Parameter> := map[];
    ghost var readings := Readings(config, values);
    for i := 0 to |values|
      invariant Collect(readings[..i]) == Ok(parameters)
    {
      CollectStep(readings, i);
      assert readings[i] == ReadParameter(config, values[i]);
      match ReadParameter(config, values[i]) {
        case Bad =>
          FailureStays(readings, i + 1);
          return Err;
        case Skip =>
        case Entry(key, parameter) =>
          if key in parameters {
            FailureStays(readings, i + 1);
            return Err;
          }
          parameters := parameters[key := parameter];
      }
    }
    assert readings[..|values|] == readings;
    r := Ok(parameters);
  }

  /** A serialisation setting other than the default is refused. */
  lemma OtherSerializationIsRefused(config: Config, fields: Object, location: string)
    requires "$ref" !in fields && AsString(Lookup(fields, "in")) == Some(location) && (location == "path" || location == "query")
    requires var style, explode := AsString(Lookup(fields, "style")), AsBool(Lookup(fields, "explode"));
             || (style.Some? && style.value != if location == "path" then "simple" else "form")
             || (explode.Some? && explode.value != (location == "query"))
             || AsBool(Lookup(fields, "allowReserved")) == Some(true)
    ensures ReadParameter(config, Obj(fields)).Bad?
  {
    assert Reference(Obj(fields)).None?;
  }

  // ---------------------------------------------------------------- bodies and responses

  /** The schema under the only media type allowed. */
  function MediaSchema(config: Config, fields: Object, mediaType: string): Result<Json> {
    match AsObject(Lookup(fields, "content"))
    case None => Err
    case Some(content) =>
      if content.Keys != {mediaType} then Err
      else match content[mediaType]
        case Obj(media) => if "schema" in media then CanonicalSchema(config, media["schema"]) else Err
        case _ => Err
  }

  function ReadBody(config: Config, value: Json): Result<RequestBody> {
    match ResolveComponent(config, value, "requestBodies")
    case Ok(Obj(fields)) =>
      (match MediaSchema(config, fields, "application/json")
       case Err => Err
       case Ok(schema) => Ok(RequestBody(AsBool(Lookup(fields, "required")) == Some(true), schema)))
    case _ => Err
  }

  predicate Digit(c: char) { '0' <= c <= '9' }

  /** Three digits, 100 to 599. */
  predicate StatusCode(status: string) {
    |status| == 3 && '1' <= status[0] <= '5' && Digit(status[1]) && Digit(status[2])
  }

  function MediaType(status: string): string {
    if "2" <= status then "application/json" else "application/problem+json"
  }

  function ReadResponse(config: Config, status: string, value: Json): Result<Response> {
    if !StatusCode(status) then Err
    else match ResolveComponent(config, value, "responses")
      case Ok(Obj(fields)) =>
        (match MediaSchema(config, fields, MediaType(status))
         case Err => Err
         case Ok(schema) => Ok(Response(MediaType(status), schema)))
      case _ => Err
  }

  function AllRead(read: (string, Json) -> Result<Response>, fields: Object): Result<map<string, Response>> {
    if forall status | status in fields :: read(status, fields[status]).Ok? then
      Ok(map status | status in fields :: read(status, fields[status]).value)
    else Err
  }

  function ResponseReader(config: Config): (string, Json) -> Result<Response> {
    (status, value) => ReadResponse(config, status, value)
  }

  function Responses(config: Config, value: Option<Json>): Result<map<string, Response>> {
    match value
    case Some(Obj(fields)) => AllRead(ResponseReader(config), fields)
    case _ => Err
  }

  /** `response_map`. */
  method ResponseMap(config: Config, value: Option<Json>) returns (r: Result<map<string, Response>>)
    ensures r == Responses(config, value)
  {
    if value.None? || !value.value.Obj? {
      return Err;
    }
    r := CollectResponses(ResponseReader(config), value.value.fields);
  }

  /** Its loop, for any way of reading one response. */
  method CollectResponses(read: (string, Json) -> Result<Response>, fields: Object) returns (r: Result<map<string, Response>>)
    ensures r == AllRead(read, fields)
  {
    var responses: map<string, Response> := map[];
    var rest := fields.Keys;
    while rest != {}
      invariant rest <= fields.Keys
      invariant forall status :: status in responses <==> status in fields && status !in rest
      invariant forall status :: status in responses ==> read(status, fields[status]) == Ok(responses[status])
    {
      var status :| status in rest;
      var reading := read(status, fields[status]);
      if reading.Err? {
        return Err;
      }
      responses := responses[status := reading.value];
      rest := rest - {status};
    }
    assert forall status :: status in fields ==> status in responses;
    assert responses == map status | status in fields :: read(status, fields[status]).value;
    r := Ok(responses);
  }

  // ---------------------------------------------------------------- acceptance

  predicate ParametersAgree(config: Config, expected: Object, operation: Object) {
    var a := Parameters(config, Lookup(expected, "parameters"));
    var b := Parameters(config, Lookup(operation, "parameters"));
    a.Ok? && b.Ok? && a.value == b.value
  }

  predicate BodiesAgree(config: Config, expected: Object, operation: Object) {
    match (Lookup(expected, "requestBody"), Lookup(operation, "requestBody"))
    case (None, None) => true
    case (Some(a), Some(b)) =>
      ReadBody(config, a).Ok? && ReadBody(config, b).Ok? && ReadBody(config, a).value == ReadBody(config, b).value
    case _ => false
  }

  predicate ResponsesAgree(config: Config, expected: Object, operation: Object) {
    var a := Responses(config, Lookup(expected, "responses"));
    var b := Responses(config, Lookup(operation, "responses"));
    a.Ok? && b.Ok? && a.value == b.value
  }

  /** The generated operation accepts the authored one. */
  predicate Accepts(config: Config, expected: Object, operation: Object) {
    ParametersAgree(config, expected, operation) && BodiesAgree(config, expected, operation) && ResponsesAgree(config, expected, operation)
  }

  /** `validate`. */
  predicate Validates(config: Config, routeId: string, verb: string, path: string, operation: Object, contract: Json) {
    && GetStr(contract, "route_id") == Some(routeId)
    && GetStr(contract, "method") == Some(verb)
    && GetStr(contract, "path") == Some(path)
    && (match Get(contract, "operation") case Some(Obj(expected)) => Accepts(config, expected, operation) case _ => false)
  }

  method Validate(config: Config, routeId: string, verb: string, path: string, operation: Object, contract: Json) returns (ok: bool)
    ensures ok <==> Validates(config, routeId, verb, path, operation, contract)
  {
    if GetStr(contract, "route_id") != Some(routeId) || GetStr(contract, "method") != Some(verb) || GetStr(contract, "path") != Some(path) {
      return false;
    }
    var expected := AsObject(Get(contract, "operation"));
    if expected.None? {
      return false;
    }
    var ours := ParameterMap(config, Lookup(expected.value, "parameters"));
    var theirs := ParameterMap(config, Lookup(operation, "parameters"));
    if ours.Err? || ours != theirs || !BodiesAgree(config, expected.value, operation) {
      return false;
    }
    var outcomes := ResponseMap(config, Lookup(expected.value, "responses"));
    var authored := ResponseMap(config, Lookup(operation, "responses"));
    ok := outcomes.Ok? && outcomes == authored;
  }

  // ---------------------------------------------------------------- what acceptance compares

  /** What a client generator sees of an operation. */
  datatype Surface = Surface(parameters: map<ParameterKey, Parameter>, body: Option<RequestBody>, responses: map<string, Response>)

  /** The surface of an operation, when it has one: the operation is well formed. */
  function SurfaceOf(config: Config, operation: Object): Option<Surface> {
    var parameters := Parameters(config, Lookup(operation, "parameters"));
    var responses := Responses(config, Lookup(operation, "responses"));
    var body := if "requestBody" in operation then ReadBody(config, operation["requestBody"]) else Err;
    if parameters.Err? || responses.Err? || ("requestBody" in operation && body.Err?) then None
    else Some(Surface(parameters.value, if body.Ok? then Some(body.value) else None, responses.value))
  }

  lemma SurfaceIff(config: Config, operation: Object)
    ensures SurfaceOf(config, operation).Some? <==>
              && Parameters(config, Lookup(operation, "parameters")).Ok?
              && Responses(config, Lookup(operation, "responses")).Ok?
              && (Lookup(operation, "requestBody").Some? ==> ReadBody(config, Lookup(operation, "requestBody").value).Ok?)
  {
  }

  /** Acceptance is equality of surfaces. */
  lemma AcceptsIffSameSurface(config: Config, expected: Object, operation: Object)
    ensures Accepts(config, expected, operation) <==>
              SurfaceOf(config, expected).Some? && SurfaceOf(config, expected) == SurfaceOf(config, operation)
  {
  }

  /** So it is an equivalence on well-formed operations, and relates nothing else. */
  lemma AcceptanceIsEquivalence(config: Config, a: Object, b: Object, c: Object)
    ensures Accepts(config, a, a) <==> SurfaceOf(config, a).Some?
    ensures Accepts(config, a, b) ==> Accepts(config, b, a) && SurfaceOf(config, a).Some? && SurfaceOf(config, b).Some?
    ensures Accepts(config, a, b) && Accepts(config, b, c) ==> Accepts(config, a, c)
  {
    AcceptsIffSameSurface(config, a, a);
    AcceptsIffSameSurface(config, a, b);
    AcceptsIffSameSurface(config, b, a);
    AcceptsIffSameSurface(config, b, c);
    AcceptsIffSameSurface(config, a, c);
  }

  /** Permuting the parameters array on either side changes nothing. */
  lemma ParametersIgnoreOrder(config: Config, values: seq<Json>, others: seq<Json>)
    requires multiset(values) == multiset(others)
    ensures Parameters(config, Some(Arr(values))) == Parameters(config, Some(Arr(others)))
  {
    MapKeepsPermutation(Reader(config), values, others);
    CollectIgnoresOrder(Readings(config, values), Readings(config, others));
  }

  lemma AcceptanceIgnoresParameterOrder(config: Config, a: Object, b: Object, values: seq<Json>)
    requires Lookup(a, "parameters").Some? && a["parameters"].Arr?
    requires multiset(values) == multiset(a["parameters"].items)
    ensures Accepts(config, a["parameters" := Arr(values)], b) == Accepts(config, a, b)
    ensures Accepts(config, b, a["parameters" := Arr(values)]) == Accepts(config, b, a)
  {
    var shuffled := a["parameters" := Arr(values)];
    ParametersIgnoreOrder(config, values, a["parameters"].items);
    assert Lookup(shuffled, "requestBody") == Lookup(a, "requestBody") && Lookup(shuffled, "responses") == Lookup(a, "responses");
    assert SurfaceOf(config, shuffled) == SurfaceOf(config, a);
    AcceptsIffSameSurface(config, a, b);
    AcceptsIffSameSurface(config, b, a);
    AcceptsIffSameSurface(config, shuffled, b);
    AcceptsIffSameSurface(config, b, shuffled);
  }
}
