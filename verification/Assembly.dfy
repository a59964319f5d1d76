/** Merging the routes of all providers into one OpenAPI document. */
module Assembly {
  import opened JsonValues
  import opened Texts
  import opened Sorting
  import opened KeyedEntries
  import opened Canonical
  import opened StrictContracts
  import opened PathTemplates

  const CONTRACT_EXTENSION := "x-lenso-contract"

  const METHODS := {"delete", "get", "head", "options", "patch", "post", "put", "trace"}

  datatype Route = Route(routeId: string, verb: string, path: string, openapi: Option<Object>)

  /** Where an operation goes, and the operation. */
  datatype Placed = Placed(path: string, verb: string, operation: Object)

  type Place = (string, string)
  type Document = map<string, map<string, Json>>

  // ---------------------------------------------------------------- path parameters

  /** An inline, required path parameter. */
  function PathParameter(name: string): Json {
    Obj(map["name" := Str(name), "in" := Str("path"), "required" := Bool(true), "schema" := Obj(map["type" := Str("string")])])
  }

  /** What an element of the parameters array declares inline. References are not followed. */
  function InlineName(parameter: Json): Entry<string, ()> {
    if !parameter.Obj? then Bad
    else if GetStr(parameter, "in") != Some("path") then Skip
    else match GetStr(parameter, "name")
      case None => Bad
      case Some(name) => if Get(parameter, "required") != Some(Bool(true)) then Bad else Entry(name, ())
  }

  predicate DeclaresInline(parameter: Json, name: string) { InlineName(parameter) == Entry(name, ()) }

  function DeclaredNames(items: seq<Json>): Result<set<string>> {
    if items == [] then Ok({})
    else match DeclaredNames(items[..|items| - 1])
      case Err => Err
      case Ok(declared) =>
        match InlineName(items[|items| - 1])
        case Bad => Err
        case Skip => Ok(declared)
        case Entry(name, _) => Ok(declared + {name})
  }

  /** The names still to be declared, in order. */
  function Undeclared(names: seq<string>, declared: set<string>): seq<string> {
    if names == [] then []
    else if names[|names| - 1] in declared || names[|names| - 1] in names[..|names| - 1] then Undeclared(names[..|names| - 1], declared)
    else Undeclared(names[..|names| - 1], declared) + [names[|names| - 1]]
  }

  function ParameterItems(operation: Object): Option<seq<Json>> {
    match Lookup(operation, "parameters") case None => Some([]) case Some(Arr(items)) => Some(items) case _ => None
  }

  function Ensured(names: seq<string>, operation: Object): Result<Object> {
    if names == [] then Ok(operation)
    else match ParameterItems(operation)
      case None => Err
      case Some(items) =>
        match DeclaredNames(items)
        case Err => Err
        case Ok(declared) => Ok(operation["parameters" := Arr(items + Map(PathParameter, Undeclared(names, declared)))])
  }

  /** `ensure_path_parameters`. */
  method EnsurePathParameters(names: seq<string>, operation: Object) returns (r: Result<Object>)
    ensures r == Ensured(names, operation)
  {
    if names == [] {
      return Ok(operation);
    }
    var found := ParameterItems(operation);
    if found.None? {
      return Err;
    }
    var declared := InlineDeclarations(found.value);
    if declared.Err? {
      return Err;
    }
    var parameters := DeclareMissing(found.value, names, declared.value);
    r := Ok(operation["parameters" := Arr(parameters)]);
  }

  /** Its first loop: the names declared inline. */
  method InlineDeclarations(items: seq<Json>) returns (r: Result<set<string>>)
    ensures r == DeclaredNames(items)
  {
    var declared: set<string> := {};
    for i := 0 to |items|
      invariant DeclaredNames(items[..i]) == Ok(declared)
    {
      assert items[..i + 1][..i] == items[..i];
      match InlineName(items[i]) {
        case Bad =>
          UnreadableStays(items, i + 1);
          return Err;
        case Skip =>
        case Entry(name, _) => declared := declared + {name};
      }
    }
    assert items[..|items|] == items;
    r := Ok(declared);
  }

  /** Its second loop: a default for each name still missing. */
  method DeclareMissing(items: seq<Json>, names: seq<string>, inlined: set<string>) returns (parameters: seq<Json>)
    ensures parameters == items + Map(PathParameter, Undeclared(names, inlined))
  {
    var declared := inlined;
    parameters := items;
    for i := 0 to |names|
      invariant forall name :: name in declared <==> name in inlined || name in names[..i]
      invariant parameters == items + Map(PathParameter, Undeclared(names[..i], inlined))
    {
      assert names[..i + 1][..i] == names[..i];
      if names[i] !in declared {
        MapGrows(PathParameter, Undeclared(names[..i], inlined), names[i]);
        declared := declared + {names[i]};
        parameters := parameters + [PathParameter(names[i])];
      }
    }
    assert names[..|names|] == names;
  }

  lemma MapGrows<A, B>(f: A -> B, s: seq<A>, x: A)
    ensures Map(f, s + [x]) == Map(f, s) + [f(x)]
  {
  }

  lemma {:induction false} UnreadableStays(items: seq<Json>, i: nat)
    requires i <= |items| && DeclaredNames(items[..i]).Err?
    ensures DeclaredNames(items).Err?
    decreases |items|
  {
    if i < |items| {
      assert items[..|items| - 1][..i] == items[..i];
      UnreadableStays(items[..|items| - 1], i);
    } else {
      assert items[..i] == items;
    }
  }

  lemma {:induction false} DeclaredNamesIff(items: seq<Json>, name: string)
    requires DeclaredNames(items).Ok?
    ensures name in DeclaredNames(items).value <==> SomeDeclares(items, name)
  {
    if items != [] {
      var shorter := items[..|items| - 1];
      DeclaredNamesIff(shorter, name);
      if name in DeclaredNames(shorter).value {
        var i :| 0 <= i < |shorter| && DeclaresInline(shorter[i], name);
        assert items[i] == shorter[i];
      }
    }
  }

  lemma {:induction false} UndeclaredIff(names: seq<string>, declared: set<string>, name: string)
    ensures name in Undeclared(names, declared) <==> name in names && name !in declared
  {
    if names != [] {
      var shorter := names[..|names| - 1];
      UndeclaredIff(shorter, declared, name);
      assert names == shorter + [names[|names| - 1]];
    }
  }

  /** Existing parameters stay in front, what follows them are defaults for exactly the names they
      leave open, and nothing else changes. */
  lemma EnsuredOnlyAppends(names: seq<string>, operation: Object)
    requires Ensured(names, operation).Ok?
    ensures var after := Ensured(names, operation).value;
            && after - {"parameters"} == operation - {"parameters"}
            && (names == [] ==> after == operation)
            && (names != [] ==>
                  && ParameterItems(operation).Some? && ParameterItems(after).Some?
                  && DeclaredNames(ParameterItems(operation).value).Ok?
                  && ParameterItems(after).value == ParameterItems(operation).value
                       + Map(PathParameter, Undeclared(names, DeclaredNames(ParameterItems(operation).value).value)))
  {
  }

  ghost predicate DefaultFor(item: Json, name: string) {
    item == Obj(map["name" := Str(name), "in" := Str("path"), "required" := Bool(true), "schema" := Obj(map["type" := Str("string")])])
  }

  /** What is appended: required path parameters of type string, for template names not declared inline. */
  lemma AppendedAreDefaults(names: seq<string>, operation: Object, i: nat)
    requires Ensured(names, operation).Ok? && names != []
    requires ParameterItems(operation).Some? && ParameterItems(Ensured(names, operation).value).Some?
    requires |ParameterItems(operation).value| <= i < |ParameterItems(Ensured(names, operation).value).value|
    ensures exists name ::
              && name in names && !SomeDeclares(ParameterItems(operation).value, name)
              && DefaultFor(ParameterItems(Ensured(names, operation).value).value[i], name)
  {
    EnsuredOnlyAppends(names, operation);
    var items := ParameterItems(operation).value;
    AppendedIsDefault(items, names, DeclaredNames(items).value, i);
  }

  lemma AppendedIsDefault(items: seq<Json>, names: seq<string>, declared: set<string>, i: nat)
    requires DeclaredNames(items) == Ok(declared)
    requires |items| <= i < |items + Map(PathParameter, Undeclared(names, declared))|
    ensures exists name ::
              name in names && !SomeDeclares(items, name) && DefaultFor((items + Map(PathParameter, Undeclared(names, declared)))[i], name)
  {
    var name := Undeclared(names, declared)[i - |items|];
    UndeclaredIff(names, declared, name);
    DeclaredNamesIff(items, name);
    assert DefaultFor(PathParameter(name), name);
  }

  ghost predicate SomeDeclares(items: seq<Json>, name: string) { exists i :: 0 <= i < |items| && DeclaresInline(items[i], name) }

  /** Every template name ends up declared inline and required. */
  lemma EnsuredDeclares(names: seq<string>, operation: Object, name: string)
    requires Ensured(names, operation).Ok? && name in names
    ensures Parametrises(Ensured(names, operation).value, name)
  {
    EnsuredOnlyAppends(names, operation);
    var items := ParameterItems(operation).value;
    DeclaredNamesIff(items, name);
    AppendingDeclares(items, names, DeclaredNames(items).value, name);
  }

  lemma AppendingDeclares(items: seq<Json>, names: seq<string>, declared: set<string>, name: string)
    requires name in names && (name in declared <==> SomeDeclares(items, name))
    ensures SomeDeclares(items + Map(PathParameter, Undeclared(names, declared)), name)
  {
    UndeclaredIff(names, declared, name);
    var missing := Undeclared(names, declared);
    var after := items + Map(PathParameter, missing);
    if name in declared {
      var i :| 0 <= i < |items| && DeclaresInline(items[i], name);
      assert after[i] == items[i];
    } else {
      var i :| 0 <= i < |missing| && missing[i] == name;
      assert after[|items| + i] == PathParameter(name);
      DefaultDeclares(name);
    }
  }

  lemma DefaultDeclares(name: string)
    ensures DeclaresInline(PathParameter(name), name)
  {
    var fields := PathParameter(name).fields;
    assert fields["in"] == Str("path") && fields["name"] == Str(name) && fields["required"] == Bool(true);
  }

  // ---------------------------------------------------------------- how often a path parameter is declared

  predicate IsPathParameter(value: Json, name: string) {
    GetStr(value, "in") == Some("path") && GetStr(value, "name") == Some(name)
  }

  function Inline(name: string): Json -> bool { item => IsPathParameter(item, name) }

  /** The element refers to a component that declares the parameter. */
  predicate Refers(config: Config, item: Json, name: string) {
    Reference(item).Some? && !IsPathParameter(item, name) &&
    match ResolveComponent(config, item, "parameters") case Err => false case Ok(target) => IsPathParameter(target, name)
  }

  function Behind(config: Config, name: string): Json -> bool { item => Refers(config, item, name) }

  function InlineCount(items: seq<Json>, name: string): nat { |Filter(Inline(name), items)| }

  function ReferencedCount(config: Config, items: seq<Json>, name: string): nat { |Filter(Behind(config, name), items)| }

  /** On elements that assembly can read, declaring inline and being a path parameter is the same. */
  lemma {:induction false} ReadableDeclares(items: seq<Json>, name: string, i: nat)
    requires DeclaredNames(items).Ok? && i < |items|
    ensures DeclaresInline(items[i], name) <==> IsPathParameter(items[i], name)
    decreases |items|
  {
    if i < |items| - 1 {
      ReadableDeclares(items[..|items| - 1], name, i);
    }
  }

  lemma {:induction false} InlineIsDeclaredIff(items: seq<Json>, name: string)
    requires DeclaredNames(items).Ok?
    ensures InlineCount(items, name) == 0 <==> name !in DeclaredNames(items).value
  {
    DeclaredNamesIff(items, name);
    if name in DeclaredNames(items).value {
      var i :| 0 <= i < |items| && DeclaresInline(items[i], name);
      ReadableDeclares(items, name, i);
      FilterMembers(Inline(name), items, items[i]);
    } else if Filter(Inline(name), items) != [] {
      var item := Filter(Inline(name), items)[0];
      FilterMembers(Inline(name), items, item);
      var i :| 0 <= i < |items| && items[i] == item;
      ReadableDeclares(items, name, i);
    }
  }

  /** A default declares its own name and nothing else, and refers to nothing. */
  lemma DefaultDeclaresOne(config: Config, name: string, other: string)
    ensures IsPathParameter(PathParameter(name), other) <==> name == other
    ensures !Refers(config, PathParameter(name), other)
  {
    var fields := PathParameter(name).fields;
    assert fields["in"] == Str("path") && fields["name"] == Str(name) && "$ref" !in fields;
  }

  lemma {:induction false} DefaultsCount(config: Config, missing: seq<string>, name: string)
    requires forall i, j :: 0 <= i < j < |missing| ==> missing[i] != missing[j]
    ensures InlineCount(Map(PathParameter, missing), name) == if name in missing then 1 else 0
    ensures ReferencedCount(config, Map(PathParameter, missing), name) == 0
    decreases |missing|
  {
    if missing != [] {
      var first, rest := missing[0], missing[1..];
      DefaultsCount(config, rest, name);
      DefaultDeclaresOne(config, first, name);
      assert missing == [first] + rest;
      FilterUnfolds(Inline(name), PathParameter(first), Map(PathParameter, rest));
      FilterUnfolds(Behind(config, name), PathParameter(first), Map(PathParameter, rest));
      assert Map(PathParameter, missing) == [PathParameter(first)] + Map(PathParameter, rest);
    }
  }

  lemma {:induction false} UndeclaredAreDistinct(names: seq<string>, declared: set<string>, i: nat, j: nat)
    requires i < j < |Undeclared(names, declared)|
    ensures Undeclared(names, declared)[i] != Undeclared(names, declared)[j]
    decreases |names|
  {
    var shorter, last := names[..|names| - 1], names[|names| - 1];
    var before := Undeclared(shorter, declared);
    if j < |before| {
      UndeclaredAreDistinct(shorter, declared, i, j);
    } else {
      UndeclaredIff(shorter, declared, before[i]);
    }
  }

  /** For a template name: afterwards it has at least one inline declaration, and as many as before if
      there were any; declarations behind references stay as they were. */
  lemma DeclarationsAfter(config: Config, names: seq<string>, operation: Object, name: string)
    requires Ensured(names, operation).Ok? && name in names
    ensures ParameterItems(operation).Some? && ParameterItems(Ensured(names, operation).value).Some?
    ensures var before, after := ParameterItems(operation).value, ParameterItems(Ensured(names, operation).value).value;
            && InlineCount(after, name) == (if InlineCount(before, name) == 0 then 1 else InlineCount(before, name))
            && ReferencedCount(config, after, name) == ReferencedCount(config, before, name)
  {
    EnsuredOnlyAppends(names, operation);
    var before := ParameterItems(operation).value;
    var declared := DeclaredNames(before).value;
    var missing := Undeclared(names, declared);
    forall i, j | 0 <= i < j < |missing| ensures missing[i] != missing[j] { UndeclaredAreDistinct(names, declared, i, j); }
    DefaultsCount(config, missing, name);
    FilterJoins(Inline(name), before, Map(PathParameter, missing));
    FilterJoins(Behind(config, name), before, Map(PathParameter, missing));
    UndeclaredIff(names, declared, name);
    InlineIsDeclaredIff(before, name);
  }

  /** A template name has exactly one declaration afterwards exactly when, before, none is behind a
      reference and at most one is inline. */
  lemma DeclaredOnceIff(config: Config, names: seq<string>, operation: Object, name: string)
    requires Ensured(names, operation).Ok? && name in names
    ensures ParameterItems(operation).Some? && ParameterItems(Ensured(names, operation).value).Some?
    ensures var before, after := ParameterItems(operation).value, ParameterItems(Ensured(names, operation).value).value;
            InlineCount(after, name) + ReferencedCount(config, after, name) == 1
            <==> ReferencedCount(config, before, name) == 0 && InlineCount(before, name) <= 1
  {
    DeclarationsAfter(config, names, operation, name);
  }

  /** It can have two: behind a reference, which is not followed ... */
  lemma ReferencedDeclarationIsRepeated(config: Config, item: Json, name: string)
    requires Refers(config, item, name) && item.fields.Keys == {"$ref"}
    ensures var operation: Object := map["parameters" := Arr([item])];
            Ensured([name], operation).Ok?
            && ParameterItems(Ensured([name], operation).value) == Some([item, PathParameter(name)])
  {
    assert InlineName(item) == Skip;
    assert [item][..0] == [] && [item][0] == item;
    assert DeclaredNames([item]) == Ok({});
    assert [name][..0] == [];
    assert Undeclared([name], {}) == [name];
    assert [item] + Map(PathParameter, [name]) == [item, PathParameter(name)];
  }

  /** ... or inline, where repetitions are not noticed. */
  lemma RepeatedDeclarationStays(name: string)
    ensures var twice := [PathParameter(name), PathParameter(name)];
            var operation: Object := map["parameters" := Arr(twice)];
            Ensured([name], operation).Ok? && ParameterItems(Ensured([name], operation).value) == Some(twice)
  {
    var item := PathParameter(name);
    DefaultDeclares(name);
    assert [item, item][..1] == [item] && [item][..0] == [];
    var none: set<string> := {};
    assert none + {name} == {name} && {name} + {name} == {name};
    assert [item][0] == item && [item, item][1] == item;
    assert DeclaredNames([item]) == Ok(none + {name});
    assert DeclaredNames([item, item]) == Ok({name} + {name});
    assert [name][..0] == [];
    assert Undeclared([name], {name}) == [];
    assert [item, item] + Map(PathParameter, []) == [item, item];
  }

  // ---------------------------------------------------------------- one route

  function DefaultResponses(): Json {
    Obj(map["default" := Obj(map["description" := Str("Undocumented response.")])])
  }

  /** The authored operation with a responses object, or failure. */
  function WithResponses(operation: Object): Result<Object> {
    match Lookup(operation, "responses")
    case Some(Obj(_)) => Ok(operation)
    case Some(_) => Err
    case None => Ok(operation["responses" := DefaultResponses()])
  }

  /** Everything `assemble` demands of a single route. */
  function Prepare(config: Config, route: Route): Result<Placed> {
    match TemplateOf(route.path)
    case Err => Err
    case Ok((path, names)) =>
      var verb := LowerText(TrimText(route.verb));
      var authored := if route.openapi.Some? then route.openapi.value else map[];
      var operation := authored - {CONTRACT_EXTENSION};
      if verb !in METHODS || Blank(route.routeId) || "operationId" in operation then Err
      else match WithResponses(operation)
        case Err => Err
        case Ok(answered) =>
          if CONTRACT_EXTENSION in authored
             && !Validates(config, route.routeId, route.verb, route.path, answered, authored[CONTRACT_EXTENSION]) then Err
          else match Ensured(names, answered)
            case Err => Err
            case Ok(complete) => Ok(Placed(path, verb, complete["operationId" := Str(route.routeId)]))
  }

  method PrepareRoute(config: Config, route: Route) returns (r: Result<Placed>)
    ensures r == Prepare(config, route)
  {
    var template := OpenApiPath(route.path);
    if template.Err? {
      return Err;
    }
    var (path, names) := template.value;
    var verb := LowerText(TrimText(route.verb));
    if verb !in METHODS || Blank(route.routeId) {
      return Err;
    }
    var operation: Object := if route.openapi.Some? then route.openapi.value else map[];
    var contract := Lookup(operation, CONTRACT_EXTENSION);
    operation := operation - {CONTRACT_EXTENSION};
    if "operationId" in operation {
      return Err;
    }
    var answered := WithResponses(operation);
    if answered.Err? {
      return Err;
    }
    if contract.Some? {
      var valid := Validate(config, route.routeId, route.verb, route.path, answered.value, contract.value);
      if !valid {
        return Err;
      }
    }
    var complete := EnsurePathParameters(names, answered.value);
    if complete.Err? {
      return Err;
    }
    r := Ok(Placed(path, verb, complete.value["operationId" := Str(route.routeId)]));
  }

  /** What the author wrote, or nothing. */
  function Authored(route: Route): Object { if route.openapi.Some? then route.openapi.value else map[] }

  ghost predicate HasVerb(route: Route, verb: string) {
    && verb in {"delete", "get", "head", "options", "patch", "post", "put", "trace"}
    && exists a, core, b :: LowersTo(route.verb, a, core, b, verb)
  }

  /** What a prepared operation carries: the method in lower case without white space around it, the route
      id, no strict contract, the authored responses or an undocumented default, an inline required path
      parameter for every name in its path, and every other authored member as it was. */
  lemma {:induction false} PreparedOperation(config: Config, route: Route)
    requires Prepare(config, route).Ok?
    ensures var placed, authored := Prepare(config, route).value, Authored(route);
            var operation := placed.operation;
            && TemplateOf(route.path).Ok?
            && placed.path == TemplateOf(route.path).value.0
            && HasVerb(route, placed.verb)
            && "x-lenso-contract" !in operation
            && Lookup(operation, "operationId") == Some(Str(route.routeId))
            && Lookup(operation, "responses") ==
                 (if "responses" in authored then Some(authored["responses"])
                  else Some(Obj(map["default" := Obj(map["description" := Str("Undocumented response.")])])))
            && (forall name :: name in TemplateOf(route.path).value.1 ==> Parametrises(operation, name))
            && (TemplateOf(route.path).value.1 == [] ==> Lookup(operation, "parameters") == Lookup(authored, "parameters"))
            && (forall key :: key !in {"x-lenso-contract", "operationId", "responses", "parameters"} ==> Lookup(operation, key) == Lookup(authored, key))
  {
    var names, authored := TemplateOf(route.path).value.1, Authored(route);
    var answered := PreparedFrom(config, route);
    var operation := Prepare(config, route).value.operation;
    PreparedVerb(route, Prepare(config, route).value.verb);
    PublishedMembers(names, answered, route.routeId);
    forall key | key !in {"x-lenso-contract", "operationId", "responses", "parameters"} ensures Lookup(operation, key) == Lookup(authored, key) {
      assert Lookup(operation, key) == Lookup(answered, key);
    }
  }

  lemma PreparedVerb(route: Route, verb: string)
    requires verb == LowerText(TrimText(route.verb)) && verb in METHODS
    ensures HasVerb(route, verb)
  {
    LoweredIff(route.verb, verb);
  }

  /** A prepared operation is the answered one, completed, with the route id. */
  lemma {:induction false} PreparedFrom(config: Config, route: Route) returns (answered: Object)
    requires Prepare(config, route).Ok?
    ensures TemplateOf(route.path).Ok? && Ensured(TemplateOf(route.path).value.1, answered).Ok?
    ensures Prepare(config, route).value ==
              Placed(TemplateOf(route.path).value.0, LowerText(TrimText(route.verb)),
                     Ensured(TemplateOf(route.path).value.1, answered).value["operationId" := Str(route.routeId)])
    ensures LowerText(TrimText(route.verb)) in METHODS
    ensures forall key :: key !in {"x-lenso-contract", "responses"} ==> Lookup(answered, key) == Lookup(Authored(route), key)
    ensures "x-lenso-contract" !in answered
    ensures Lookup(answered, "responses") ==
              if "responses" in Authored(route) then Some(Authored(route)["responses"])
              else Some(Obj(map["default" := Obj(map["description" := Str("Undocumented response.")])]))
  {
    answered := WithResponses(Authored(route) - {CONTRACT_EXTENSION}).value;
  }

  lemma {:induction false} PublishedMembers(names: seq<string>, answered: Object, routeId: string)
    requires Ensured(names, answered).Ok?
    ensures var operation := Ensured(names, answered).value["operationId" := Str(routeId)];
            && (forall key :: key != "parameters" && key != "operationId" ==> Lookup(operation, key) == Lookup(answered, key))
            && (names == [] ==> Lookup(operation, "parameters") == Lookup(answered, "parameters"))
            && (forall name :: name in names ==> Parametrises(operation, name))
  {
    var complete := Ensured(names, answered).value;
    forall key | key != "parameters" ensures Lookup(complete, key) == Lookup(answered, key) { EnsuredKeeps(names, answered, key); }
    forall name | name in names ensures Parametrises(complete["operationId" := Str(routeId)], name) {
      EnsuredDeclares(names, answered, name);
    }
  }

  /** The parameters an operation may have when its path has names: objects, of which those in the path
      have a name and are required. */
  ghost predicate Publishable(operation: Object) {
    "parameters" in operation ==>
      && operation["parameters"].Arr?
      && forall i :: 0 <= i < |operation["parameters"].items| ==> PublishableItem(operation["parameters"].items[i])
  }

  ghost predicate PublishableItem(item: Json) {
    && item.Obj?
    && ("in" in item.fields && item.fields["in"] == Str("path") ==>
          && "name" in item.fields && item.fields["name"].Str?
          && "required" in item.fields && item.fields["required"] == Bool(true))
  }

  lemma {:induction false} DeclaredNamesSucceedIff(items: seq<Json>)
    ensures DeclaredNames(items).Ok? <==> forall i :: 0 <= i < |items| ==> PublishableItem(items[i])
    decreases |items|
  {
    if items != [] {
      var shorter, last := items[..|items| - 1], items[|items| - 1];
      DeclaredNamesSucceedIff(shorter);
      assert forall i :: 0 <= i < |shorter| ==> items[i] == shorter[i];
      assert !InlineName(last).Bad? <==> PublishableItem(last);
    }
  }

  lemma EnsuredIff(names: seq<string>, operation: Object)
    ensures Ensured(names, operation).Ok? <==> names == [] || Publishable(operation)
  {
    if ParameterItems(operation).Some? {
      DeclaredNamesSucceedIff(ParameterItems(operation).value);
    }
  }

  /** Exactly which routes can be described. */
  lemma PreparesIff(config: Config, route: Route)
    ensures Prepare(config, route).Ok? <==>
              var authored := Authored(route);
              && TemplateOf(route.path).Ok?
              && (exists verb :: HasVerb(route, verb))
              && !AllWhite(route.routeId)
              && "operationId" !in authored
              && ("responses" in authored ==> authored["responses"].Obj?)
              && (TemplateOf(route.path).value.1 != [] ==> Publishable(authored))
              && ("x-lenso-contract" in authored ==>
                    var operation := authored - {"x-lenso-contract"};
                    Validates(config, route.routeId, route.verb, route.path,
                              if "responses" in operation then operation
                              else operation["responses" := Obj(map["default" := Obj(map["description" := Str("Undocumented response.")])])],
                              authored["x-lenso-contract"]))
  {
    var authored := Authored(route);
    var operation := authored - {"x-lenso-contract"};
    BlankIff(route.routeId);
    VerbIff(route);
    var answered := WithResponses(operation);
    if TemplateOf(route.path).Ok? && answered.Ok? {
      EnsuredIff(TemplateOf(route.path).value.1, answered.value);
      assert Publishable(answered.value) <==> Publishable(authored);
    }
  }

  lemma VerbIff(route: Route)
    ensures LowerText(TrimText(route.verb)) in METHODS <==> exists verb :: HasVerb(route, verb)
  {
    var lowered := LowerText(TrimText(route.verb));
    if lowered in METHODS {
      LoweredIff(route.verb, lowered);
      assert HasVerb(route, lowered);
    }
    if verb :| HasVerb(route, verb) {
      LoweredIff(route.verb, verb);
    }
  }

  /** A strict contract is enforced: the authored operation, without the extension and with the
      default responses if it has none, validates against it. */
  lemma ContractIsEnforced(config: Config, route: Route)
    requires Prepare(config, route).Ok? && route.openapi.Some? && CONTRACT_EXTENSION in route.openapi.value
    ensures var authored := route.openapi.value;
            var operation := authored - {CONTRACT_EXTENSION};
            Validates(config, route.routeId, route.verb, route.path,
                      if "responses" in operation then operation else operation["responses" := DefaultResponses()],
                      authored[CONTRACT_EXTENSION])
  {
  }

  lemma StrictRoutePrepares(config: Config, route: Route, operation: Object, contract: Json)
    requires TemplateOf(route.path).Ok? && LowerText(TrimText(route.verb)) in METHODS && !Blank(route.routeId)
    requires CONTRACT_EXTENSION !in operation && "operationId" !in operation
    requires route.openapi == Some(operation[CONTRACT_EXTENSION := contract])
    requires Lookup(operation, "responses").Some? && operation["responses"].Obj?
    requires Validates(config, route.routeId, route.verb, route.path, operation, contract)
    requires Ensured(TemplateOf(route.path).value.1, operation).Ok?
    ensures Prepare(config, route).Ok?
  {
    assert operation[CONTRACT_EXTENSION := contract] - {CONTRACT_EXTENSION} == operation;
  }

  lemma DefaultReads(config: Config, name: string)
    ensures var reading := ReadParameter(config, PathParameter(name));
            reading.Entry? && reading.key == ("path", name)
  {
    var value := PathParameter(name);
    var fields, schema := value.fields, value.fields["schema"];
    assert schema == Obj(map["type" := Str("string")]);
    assert ReferenceFree(schema);
    ReferenceFreeCanonicalises(config, schema, schema, {});
    assert Reference(value).None?;
    assert fields["in"] == Str("path") && fields["name"] == Str(name) && fields["required"] == Bool(true);
    assert "style" !in fields && "explode" !in fields && "allowReserved" !in fields;
  }

  /** An appended default is a new parameter, or a repeated one; either way the parameters differ. */
  lemma AppendingChangesParameters(config: Config, operation: Object, missing: seq<string>)
    requires ParameterItems(operation).Some? && missing != []
    ensures var before := Parameters(config, Lookup(operation, "parameters"));
            var after := Parameters(config, Some(Arr(ParameterItems(operation).value + Map(PathParameter, missing))));
            before.Ok? && after.Ok? ==> before != after
  {
    var items := ParameterItems(operation).value;
    var all := items + Map(PathParameter, missing);
    var fewer, more := Readings(config, items), Readings(config, all);
    var at, key := |items|, ("path", missing[0]);
    assert all[at] == PathParameter(missing[0]) && more[at] == ReadParameter(config, all[at]);
    DefaultReads(config, missing[0]);
    var before, after := Parameters(config, Lookup(operation, "parameters")), Collect(more);
    if before.Ok? && after.Ok? && before == after {
      CollectedEntry(more, at);
      assert key in before.value;
      var j := CollectedKey(fewer, key);
      assert all[j] == items[j] && more[j] == fewer[j];
      CollectedKeysDiffer(more, j, at);
    }
  }

  /** Defaults are appended after validation. Given that the authored operation meets its contract, the
      published one does exactly when every template name is declared inline already. */
  lemma PublishedIsAcceptedIff(config: Config, expected: Object, operation: Object, names: seq<string>, routeId: string)
    requires Accepts(config, expected, operation) && Ensured(names, operation).Ok?
    ensures Accepts(config, expected, Ensured(names, operation).value["operationId" := Str(routeId)])
       <==> forall name :: name in names ==> Parametrises(operation, name)
  {
    var complete := Ensured(names, operation).value;
    var published := complete["operationId" := Str(routeId)];
    EnsuredKeeps(names, operation, "requestBody");
    EnsuredKeeps(names, operation, "responses");
    EnsuredOnlyAppends(names, operation);
    AcceptsIffSameSurface(config, expected, operation);
    AcceptsIffSameSurface(config, expected, published);
    if names != [] {
      var items := ParameterItems(operation).value;
      var declared := DeclaredNames(items).value;
      var missing := Undeclared(names, declared);
      MissingIff(names, operation);
      if missing != [] {
        AppendingChangesParameters(config, operation, missing);
      } else {
        assert items + Map(PathParameter, missing) == items;
        assert Parameters(config, Lookup(published, "parameters")) == Parameters(config, Lookup(operation, "parameters"));
      }
    }
  }

  lemma MissingIff(names: seq<string>, operation: Object)
    requires Ensured(names, operation).Ok? && names != []
    ensures ParameterItems(operation).Some? && DeclaredNames(ParameterItems(operation).value).Ok?
    ensures Undeclared(names, DeclaredNames(ParameterItems(operation).value).value) == []
       <==> forall name :: name in names ==> Parametrises(operation, name)
  {
    EnsuredOnlyAppends(names, operation);
    var items := ParameterItems(operation).value;
    var missing := Undeclared(names, DeclaredNames(items).value);
    forall name | name in names ensures name in missing <==> !Parametrises(operation, name) {
      UndeclaredIff(names, DeclaredNames(items).value, name);
      DeclaredNamesIff(items, name);
    }
    if missing != [] {
      UndeclaredIff(names, DeclaredNames(items).value, missing[0]);
    }
  }

  /** For a whole route: a strict contract still holds of the published operation exactly when the
      author declared every path parameter inline. */
  lemma PublishedContractHoldsIff(config: Config, route: Route)
    requires Prepare(config, route).Ok? && route.openapi.Some? && CONTRACT_EXTENSION in route.openapi.value
    ensures Validates(config, route.routeId, route.verb, route.path, Prepare(config, route).value.operation, route.openapi.value[CONTRACT_EXTENSION])
       <==> forall name :: name in TemplateOf(route.path).value.1 ==> Parametrises(route.openapi.value, name)
  {
    var authored := route.openapi.value;
    var contract := authored[CONTRACT_EXTENSION];
    var operation := authored - {CONTRACT_EXTENSION};
    ContractIsEnforced(config, route);
    var answered := WithResponses(operation).value;
    var names := TemplateOf(route.path).value.1;
    assert ParameterItems(answered) == ParameterItems(authored);
    var expected := Get(contract, "operation").value.fields;
    PublishedIsAcceptedIff(config, expected, answered, names, route.routeId);
    assert forall name :: Parametrises(answered, name) <==> Parametrises(authored, name);
  }

  /** A strict contract cannot be met by an operation that leaves its responses out: the default
      response has no explicit status. */
  lemma StrictRoutesDeclareResponses(config: Config, route: Route)
    requires Prepare(config, route).Ok? && route.openapi.Some? && CONTRACT_EXTENSION in route.openapi.value
    ensures "responses" in route.openapi.value
  {
    ContractIsEnforced(config, route);
    if "responses" !in route.openapi.value {
      DefaultResponsesAreNotStrict(config);
    }
  }

  lemma DefaultResponsesAreNotStrict(config: Config)
    ensures Responses(config, Some(DefaultResponses())).Err?
  {
    var fields := DefaultResponses().fields;
    assert "default" in fields && !StatusCode("default");
    assert ResponseReader(config)("default", fields["default"]).Err?;
  }

  ghost predicate Parametrises(operation: Object, name: string) {
    ParameterItems(operation).Some? && SomeDeclares(ParameterItems(operation).value, name)
  }

  lemma EnsuredKeeps(names: seq<string>, operation: Object, key: string)
    requires Ensured(names, operation).Ok? && key != "parameters"
    ensures Lookup(Ensured(names, operation).value, key) == Lookup(operation, key)
  {
  }

  // ---------------------------------------------------------------- the document

  function ById(config: Config): Route -> Entry<string, ()> {
    route => if Prepare(config, route).Ok? then Entry(route.routeId, ()) else Bad
  }

  function ByPlace(config: Config): Route -> Entry<Place, Json> {
    route => match Prepare(config, route)
      case Err => Bad
      case Ok(placed) => Entry((placed.path, placed.verb), Obj(placed.operation))
  }

  function Paths(operations: map<Place, Json>): set<string> { set place | place in operations :: place.0 }

  function Verbs(operations: map<Place, Json>, path: string): set<string> { set place | place in operations && place.0 == path :: place.1 }

  function GroupAt(operations: map<Place, Json>, path: string): map<string, Json> {
    map verb | verb in Verbs(operations, path) :: operations[(path, verb)]
  }

  /** Operations grouped by path. */
  function Grouped(operations: map<Place, Json>): Document {
    map path | path in Paths(operations) :: GroupAt(operations, path)
  }

  /** `assemble`, as far as the `paths` of the document. */
  function Assembled(config: Config, routes: seq<Route>): Result<Document> {
    Outcome(Collect(Map(ById(config), routes)), Collect(Map(ByPlace(config), routes)))
  }

  /** Both collections must succeed, and a document must not be empty. */
  function Outcome(ids: Result<map<string, ()>>, places: Result<map<Place, Json>>): Result<Document> {
    if ids.Err? || places.Err? || places.value == map[] then Err else Ok(Grouped(places.value))
  }

  function Flatten(descriptions: seq<seq<Route>>): seq<Route> {
    if descriptions == [] then [] else descriptions[0] + Flatten(descriptions[1..])
  }

  /** `paths.entry(path).or_default()`. */
  function EntryAt(paths: Document, path: string): map<string, Json> { if path in paths then paths[path] else map[] }

  lemma EntryIsGroup(operations: map<Place, Json>, path: string)
    ensures EntryAt(Grouped(operations), path) == GroupAt(operations, path)
    ensures path in Grouped(operations) <==> path in Paths(operations)
  {
    if path !in Paths(operations) {
      assert Verbs(operations, path) == {};
    }
  }

  lemma GroupMembers(operations: map<Place, Json>, path: string, verb: string)
    ensures verb in GroupAt(operations, path) <==> (path, verb) in operations
  {
  }

  lemma GroupedEmptyIff(operations: map<Place, Json>)
    ensures Grouped(operations) == map[] <==> operations == map[]
  {
    if operations != map[] {
      var place :| place in operations;
      assert place.0 in Grouped(operations);
    }
  }

  lemma GroupAtGrows(operations: map<Place, Json>, path: string, verb: string, operation: Json, other: string)
    ensures var more := operations[(path, verb) := operation];
            GroupAt(more, other) == if other == path then GroupAt(operations, path)[verb := operation] else GroupAt(operations, other)
  {
    var more := operations[(path, verb) := operation];
    assert Verbs(more, other) == Verbs(operations, other) + if other == path then {verb} else {};
  }

  lemma PathsGrow(operations: map<Place, Json>, path: string, verb: string, operation: Json)
    ensures Paths(operations[(path, verb) := operation]) == Paths(operations) + {path}
  {
    var more := operations[(path, verb) := operation];
    assert (path, verb) in more;
    forall other | other in Paths(operations) ensures other in Paths(more) {
      var place :| place in operations && place.0 == other;
      assert place in more;
    }
  }

  lemma GroupedGrows(operations: map<Place, Json>, path: string, verb: string, operation: Json)
    ensures Grouped(operations)[path := GroupAt(operations, path)[verb := operation]] == Grouped(operations[(path, verb) := operation])
  {
    var more := operations[(path, verb) := operation];
    PathsGrow(operations, path, verb, operation);
    forall other | other in Paths(more)
      ensures GroupAt(more, other) == if other == path then GroupAt(operations, path)[verb := operation] else GroupAt(operations, other)
    {
      GroupAtGrows(operations, path, verb, operation, other);
    }
  }

  /** Puts one operation into the document, unless its place is taken. */
  method PlaceOperation(paths: Document, placed: Placed, ghost operations: map<Place, Json>) returns (r: Result<Document>)
    requires paths == Grouped(operations)
    ensures r == if (placed.path, placed.verb) in operations then Err
                 else Ok(Grouped(operations[(placed.path, placed.verb) := Obj(placed.operation)]))
  {
    var Placed(path, verb, operation) := placed;
    var methods := EntryAt(paths, path);
    EntryIsGroup(operations, path);
    GroupMembers(operations, path, verb);
    if verb in methods {
      return Err;
    }
    GroupedGrows(operations, path, verb, Obj(operation));
    r := Ok(paths[path := methods[verb := Obj(operation)]]);
  }

  /** The body of the loop in `assemble`. */
  method AddRoute(config: Config, route: Route, ids: set<string>, paths: Document,
                  ghost known: map<string, ()>, ghost operations: map<Place, Json>,
                  ghost idEntry: Entry<string, ()>, ghost placeEntry: Entry<Place, Json>)
      returns (r: Result<(set<string>, Document)>)
    requires ids == known.Keys && paths == Grouped(operations)
    requires idEntry == ById(config)(route) && placeEntry == ByPlace(config)(route)
    ensures r.Err? <==> Add(known, idEntry).Err? || Add(operations, placeEntry).Err?
    ensures r.Ok? ==> r.value.0 == Add(known, idEntry).value.Keys && r.value.1 == Grouped(Add(operations, placeEntry).value)
  {
    var prepared := PrepareRoute(config, route);
    if prepared.Err? || route.routeId in ids {
      return Err;
    }
    var next := PlaceOperation(paths, prepared.value, operations);
    if next.Err? {
      return Err;
    }
    r := Ok((ids + {route.routeId}, next.value));
  }

  method Assemble(config: Config, descriptions: seq<seq<Route>>) returns (r: Result<Document>)
    ensures r == Assembled(config, Flatten(descriptions))
  {
    var routes := Flatten(descriptions);
    r := AddRoutes(config, routes, Map(ById(config), routes), Map(ByPlace(config), routes));
  }

  method AddRoutes(config: Config, routes: seq<Route>, ghost byId: seq<Entry<string, ()>>, ghost byPlace: seq<Entry<Place, Json>>)
      returns (r: Result<Document>)
    requires |byId| == |byPlace| == |routes|
    requires forall i :: 0 <= i < |routes| ==> byId[i] == ById(config)(routes[i])
    requires forall i :: 0 <= i < |routes| ==> byPlace[i] == ByPlace(config)(routes[i])
    ensures r == Outcome(Collect(byId), Collect(byPlace))
  {
    var paths: Document := map[];
    var ids: set<string> := {};
    ghost var known: map<string, ()> := map[];
    ghost var operations: map<Place, Json> := map[];
    for i := 0 to |routes|
      invariant Collect(byId[..i]) == Ok(known) && Collect(byPlace[..i]) == Ok(operations)
      invariant ids == known.Keys && paths == Grouped(operations)
    {
      CollectStep(byId, i);
      CollectStep(byPlace, i);
      var next := AddRoute(config, routes[i], ids, paths, known, operations, byId[i], byPlace[i]);
      if next.Err? {
        if Add(known, byId[i]).Err? {
          FailureStays(byId, i + 1);
        } else {
          FailureStays(byPlace, i + 1);
        }
        return Err;
      }
      ids, paths := next.value.0, next.value.1;
      known, operations := Add(known, byId[i]).value, Add(operations, byPlace[i]).value;
    }
    assert byId[..|routes|] == byId && byPlace[..|routes|] == byPlace;
    GroupedEmptyIff(operations);
    if paths == map[] {
      return Err;
    }
    r := Ok(paths);
  }

  // ---------------------------------------------------------------- when assembly succeeds

  ghost predicate AllPrepare(config: Config, routes: seq<Route>) { forall i :: 0 <= i < |routes| ==> Prepare(config, routes[i]).Ok? }

  ghost predicate IdsDiffer(routes: seq<Route>) { forall i, j :: 0 <= i < j < |routes| ==> routes[i].routeId != routes[j].routeId }

  ghost predicate PlacesDiffer(config: Config, routes: seq<Route>)
    requires AllPrepare(config, routes)
  {
    forall i, j :: 0 <= i < j < |routes| ==> PlaceOf(config, routes[i]) != PlaceOf(config, routes[j])
  }

  function PlaceOf(config: Config, route: Route): Place
    requires Prepare(config, route).Ok?
  {
    (Prepare(config, route).value.path, Prepare(config, route).value.verb)
  }

  lemma {:induction false} IdsCollectIff(config: Config, routes: seq<Route>)
    ensures Collect(Map(ById(config), routes)).Ok? <==> AllPrepare(config, routes) && IdsDiffer(routes)
  {
    var byId := Map(ById(config), routes);
    CollectSucceedsIff(byId);
    forall i | 0 <= i < |routes| ensures byId[i].Bad? <==> Prepare(config, routes[i]).Err? {
      assert byId[i] == ById(config)(routes[i]);
    }
  }

  lemma {:induction false} PlacesCollectIff(config: Config, routes: seq<Route>)
    ensures Collect(Map(ByPlace(config), routes)).Ok? <==> AllPrepare(config, routes) && PlacesDiffer(config, routes)
    ensures Collect(Map(ByPlace(config), routes)).Ok? ==> (Collect(Map(ByPlace(config), routes)).value == map[] <==> routes == [])
  {
    var byPlace := Map(ByPlace(config), routes);
    CollectSucceedsIff(byPlace);
    forall i | 0 <= i < |routes|
      ensures byPlace[i].Bad? <==> Prepare(config, routes[i]).Err?
      ensures !byPlace[i].Bad? ==> byPlace[i].Entry? && byPlace[i].key == PlaceOf(config, routes[i])
    {
      assert byPlace[i] == ByPlace(config)(routes[i]);
    }
    if Collect(byPlace).Ok? && routes != [] {
      CollectedEntry(byPlace, 0);
    }
  }

  /** Assembly succeeds exactly when there is a route, every route can be described, route ids
      differ, and no two routes share a path template and method. */
  lemma {:induction false} AssemblesIff(config: Config, routes: seq<Route>)
    ensures Assembled(config, routes).Ok? <==>
              routes != [] && AllPrepare(config, routes) && IdsDiffer(routes) && PlacesDiffer(config, routes)
  {
    IdsCollectIff(config, routes);
    PlacesCollectIff(config, routes);
  }

  /** The document holds each route's operation at its place, and nothing that did not come from
      exactly one route. */
  lemma OneOperationPerRoute(config: Config, routes: seq<Route>, i: nat)
    requires Assembled(config, routes).Ok? && i < |routes|
    ensures var paths := Assembled(config, routes).value;
            && Prepare(config, routes[i]).Ok?
            && var Placed(path, verb, operation) := Prepare(config, routes[i]).value;
               && path in paths && verb in paths[path] && paths[path][verb] == Obj(operation)
  {
    var byPlace := Map(ByPlace(config), routes);
    CollectedEntry(byPlace, i);
    assert byPlace[i] == ByPlace(config)(routes[i]);
  }

  lemma OneRoutePerOperation(config: Config, routes: seq<Route>, path: string, verb: string) returns (i: nat)
    requires Assembled(config, routes).Ok?
    requires path in Assembled(config, routes).value && verb in Assembled(config, routes).value[path]
    ensures i < |routes| && Prepare(config, routes[i]).Ok? && PlaceOf(config, routes[i]) == (path, verb)
    ensures Assembled(config, routes).value[path][verb] == Obj(Prepare(config, routes[i]).value.operation)
    ensures forall j :: 0 <= j < |routes| && Prepare(config, routes[j]).Ok? && PlaceOf(config, routes[j]) == (path, verb) ==> j == i
  {
    var byPlace := Map(ByPlace(config), routes);
    i := CollectedKey(byPlace, (path, verb));
    assert byPlace[i] == ByPlace(config)(routes[i]);
    AssemblesIff(config, routes);
  }

  // ---------------------------------------------------------------- order does not matter

  /** The order of the routes, within a provider and across providers, changes neither success nor document. */
  lemma AssemblyIgnoresOrder(config: Config, routes: seq<Route>, others: seq<Route>)
    requires multiset(routes) == multiset(others)
    ensures Assembled(config, routes) == Assembled(config, others)
  {
    assert |multiset(routes)| == |routes| && |multiset(others)| == |others|;
    MapKeepsPermutation(ById(config), routes, others);
    MapKeepsPermutation(ByPlace(config), routes, others);
    CollectIgnoresOrder(Map(ById(config), routes), Map(ById(config), others));
    CollectIgnoresOrder(Map(ByPlace(config), routes), Map(ByPlace(config), others));
  }

  lemma {:induction false} FlattenJoins(a: seq<seq<Route>>, b: seq<seq<Route>>)
    ensures Flatten(a + b) == Flatten(a) + Flatten(b)
  {
    if a == [] {
      assert a + b == b;
    } else {
      assert (a + b)[1..] == a[1..] + b;
      FlattenJoins(a[1..], b);
    }
  }

  lemma {:induction false} FlattenKeepsPermutation(a: seq<seq<Route>>, b: seq<seq<Route>>)
    requires multiset(a) == multiset(b)
    ensures multiset(Flatten(a)) == multiset(Flatten(b))
  {
    assert |multiset(a)| == |a| && |multiset(b)| == |b|;
    if a != [] {
      var i := HeadInPermutation(a, b);
      var first, last := b[..i], b[i + 1..];
      FlattenKeepsPermutation(a[1..], first + last);
      FlattenJoins(first, last);
      FlattenJoins(first, [b[i]] + last);
      assert b == first + ([b[i]] + last) && ([b[i]] + last)[1..] == last;
      MiddleToFront(Flatten(first), b[i], Flatten(last));
    }
  }

  lemma AssemblyIgnoresProviderOrder(config: Config, descriptions: seq<seq<Route>>, others: seq<seq<Route>>)
    requires multiset(descriptions) == multiset(others)
    ensures Assembled(config, Flatten(descriptions)) == Assembled(config, Flatten(others))
  {
    FlattenKeepsPermutation(descriptions, others);
    AssemblyIgnoresOrder(config, Flatten(descriptions), Flatten(others));
  }
}
