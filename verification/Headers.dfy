/** The request as middleware sees it, and as the endpoint gets it back.

    A header map keeps the order of the values of one name; the order in which it lists its names
    is its own affair. Statements about whole header maps are therefore made name by name. */
module Headers {
  import opened FieldText
  import opened Texts
  import opened JsonValues
  import opened Sorting
  import opened Cookies
  import opened Credentials

  const QUESTION: bv8 := 0x3f
  const HASH: bv8 := 0x23
  const COLON: bv8 := 0x3a
  const SLASH: bv8 := 0x2f
  const STAR: bv8 := 0x2a

  // ---------------------------------------------------------------- names the ingress keeps to itself

  predicate HopByHop(name: string) {
    name in {"connection", "te", "trailer", "transfer-encoding", "upgrade", "keep-alive", "proxy-connection"}
  }

  /** `is_filtered_request_header`. */
  predicate Filtered(name: string) {
    name == "authorization" || name == "cookie" || HopByHop(name) || name == "content-length" || name == "host" || name == "x-request-id"
  }

  /** The names that never reach middleware or endpoint as the client sent them. */
  lemma FilteredIff(name: string)
    ensures Filtered(name) <==>
              name in {"authorization", "cookie", "connection", "te", "trailer", "transfer-encoding", "upgrade", "keep-alive",
                       "proxy-connection", "content-length", "host", "x-request-id"}
  {
  }

  predicate TokenOctet(b: bv8) {
    || 0x30 <= b <= 0x39 || 0x41 <= b <= 0x5a || 0x61 <= b <= 0x7a
    || b == 0x21 || 0x23 <= b <= 0x27 || b == 0x2a || b == 0x2b || b == 0x2d || b == 0x2e
    || b == 0x5e || b == 0x5f || b == 0x60 || b == 0x7c || b == 0x7e
  }

  /** `HeaderName::from_bytes` succeeds. */
  predicate ValidName(token: Octets) {
    0 < |token| <= 65535 && forall i | 0 <= i < |token| :: TokenOctet(token[i])
  }

  /** A header name is not empty, not longer than 65535 octets, and made of visible ASCII other than the
      delimiters of section 5.6.2 of RFC 9110. */
  lemma ValidNameIff(token: Octets)
    ensures ValidName(token) <==>
              && 1 <= |token| <= 65535
              && forall i :: 0 <= i < |token| ==> Undelimited(token[i])
  {
    forall i | 0 <= i < |token| ensures TokenOctet(token[i]) <==> Undelimited(token[i]) { TokenOctetIff(token[i]); }
  }

  predicate Undelimited(b: bv8) {
    && 0x20 < b < 0x7f
    && b != 0x22 && b != 0x28 && b != 0x29 && b != 0x2c && b != 0x2f && b != 0x3a && b != 0x3b && b != 0x3c && b != 0x3d
    && b != 0x3e && b != 0x3f && b != 0x40 && b != 0x5b && b != 0x5c && b != 0x5d && b != 0x7b && b != 0x7d
  }

  lemma TokenOctetIff(b: bv8)
    ensures TokenOctet(b) <==> Undelimited(b)
  {
  }

  function NameOf(token: Octets): string { Text(Lower(token)) }

  /** The names listed in one Connection field. */
  function Tokens(value: Octets): seq<Octets> { Trimmed(Split(COMMA, value)) }

  ghost predicate Listed(values: seq<Octets>, token: Octets) {
    exists i :: 0 <= i < |values| && token in Tokens(values[i])
  }

  predicate GoodToken(token: Octets) { HopByHop(NameOf(token)) || ValidName(token) }

  predicate GoodTokens(tokens: seq<Octets>) { forall i | 0 <= i < |tokens| :: GoodToken(tokens[i]) }

  predicate GoodConnection(value: Octets) { Readable(value) && GoodTokens(Tokens(value)) }

  predicate GoodConnections(values: seq<Octets>) { forall i | 0 <= i < |values| :: GoodConnection(values[i]) }

  function NamesIn(tokens: seq<Octets>): set<string> {
    set i | 0 <= i < |tokens| && !HopByHop(NameOf(tokens[i])) :: NameOf(tokens[i])
  }

  function OwnedNames(values: seq<Octets>): set<string> {
    if values == [] then {} else OwnedNames(values[..|values| - 1]) + NamesIn(Tokens(values[|values| - 1]))
  }

  /** `connection_owned_headers`. */
  method ConnectionOwnedHeaders(fields: seq<Field>) returns (r: Result<set<string>>)
    ensures r == ConnectionOwned(fields)
  {
    var values := Values(fields, "connection");
    var owned: set<string> := {};
    for i := 0 to |values|
      invariant owned == OwnedNames(values[..i])
      invariant forall j :: 0 <= j < i ==> GoodConnection(values[j])
    {
      if !Readable(values[i]) {
        return Err;
      }
      var names := NamesInField(Tokens(values[i]));
      if names.Err? {
        return Err;
      }
      owned := owned + names.value;
      assert values[..i + 1][..i] == values[..i];
    }
    assert values[..|values|] == values;
    r := Ok(owned);
  }

  /** The inner loop: the names of one Connection field. */
  method NamesInField(tokens: seq<Octets>) returns (r: Result<set<string>>)
    ensures r == if GoodTokens(tokens) then Ok(NamesIn(tokens)) else Err
  {
    var names: set<string> := {};
    for k := 0 to |tokens|
      invariant names == NamesIn(tokens[..k])
      invariant forall j :: 0 <= j < k ==> GoodToken(tokens[j])
    {
      assert tokens[..k + 1] == tokens[..k] + [tokens[k]];
      NamesInGrows(tokens[..k], tokens[k]);
      if HopByHop(NameOf(tokens[k])) {
        continue;
      }
      if !ValidName(tokens[k]) {
        return Err;
      }
      names := names + {NameOf(tokens[k])};
    }
    assert tokens[..|tokens|] == tokens;
    r := Ok(names);
  }

  lemma NamesInGrows(tokens: seq<Octets>, token: Octets)
    ensures NamesIn(tokens + [token]) == NamesIn(tokens) + if HopByHop(NameOf(token)) then {} else {NameOf(token)}
  {
    var more := tokens + [token];
    forall name ensures name in NamesIn(more) <==> name in NamesIn(tokens) + (if HopByHop(NameOf(token)) then {} else {NameOf(token)}) {
      if name in NamesIn(tokens) {
        var i :| 0 <= i < |tokens| && !HopByHop(NameOf(tokens[i])) && NameOf(tokens[i]) == name;
        assert more[i] == tokens[i];
      }
      if !HopByHop(NameOf(token)) {
        assert more[|tokens|] == token;
      }
    }
  }

  function ConnectionOwned(fields: seq<Field>): Result<set<string>> {
    var values := Values(fields, "connection");
    if GoodConnections(values) then Ok(OwnedNames(values)) else Err
  }

  // ---------------------------------------------------------------- requests

  datatype Request = Request(verb: Octets, target: Octets, fields: seq<Field>, body: Octets)

  datatype Inbound = Inbound(
    verb: Octets, path: Octets, query: Option<Octets>, fields: seq<Field>, body: Octets,
    credential: Option<Credential>, csrfHeader: Option<string>, requestId: Octets)

  /** What bypasses the middleware. */
  datatype Control = Control(credential: Option<Credential>, csrfHeader: Option<string>, requestId: Octets)

  function WithoutFragment(target: Octets): Octets {
    match SplitOnce(HASH, target) case None => target case Some((before, _)) => before
  }

  function FromPath(t: Octets): Octets {
    if t == [] || t[0] == SLASH || t[0] == QUESTION || t[0] == HASH then t else FromPath(t[1..])
  }

  /** A target without scheme and authority. An absolute target without a path has the path "/"; a
      target that is only an authority has none. */
  function OriginForm(target: Octets): Octets {
    if (target != [] && target[0] == SLASH) || target == [STAR] then target
    else match SplitOnce(COLON, target)
      case None => []
      case Some((_, rest)) =>
        if !([SLASH, SLASH] <= rest) then []
        else
          var path := FromPath(rest[2..]);
          if path != [] && path[0] == SLASH then path else [SLASH] + path
  }

  /** What `Uri` keeps of it. */
  function PathAndQuery(target: Octets): Octets { WithoutFragment(OriginForm(target)) }

  /** `Uri::path` and `Uri::query`. */
  function PathOf(target: Octets): Octets {
    match SplitOnce(QUESTION, PathAndQuery(target)) case None => PathAndQuery(target) case Some((path, _)) => path
  }

  function QueryOf(target: Octets): Option<Octets> {
    match SplitOnce(QUESTION, PathAndQuery(target)) case None => None case Some((_, query)) => Some(query)
  }

  function Target(path: Octets, query: Option<Octets>): Octets {
    match query case None => path case Some(q) => path + [QUESTION] + q
  }

  predicate Private(name: string, csrfHeader: Option<string>, owned: set<string>) {
    Filtered(name) || csrfHeader == Some(name) || name in owned
  }

  /** The fields that pass on. */
  function Passing(fields: seq<Field>, csrfHeader: Option<string>, owned: set<string>): seq<Field> {
    Filter((f: Field) => !Private(f.name, csrfHeader, owned), fields)
  }

  predicate ReadableFields(fields: seq<Field>) { forall i | 0 <= i < |fields| :: Readable(fields[i].value) }

  function PassingFields(fields: seq<Field>, csrfHeader: Option<string>): Outcome<seq<Field>> {
    match ConnectionOwned(fields)
    case Err => BadRequest
    case Ok(owned) =>
      var passing := Passing(fields, csrfHeader, owned);
      if ReadableFields(passing) then Accepted(passing) else BadRequest
  }

  function RequestId(fields: seq<Field>): Outcome<Octets> {
    var values := Values(fields, "x-request-id");
    if values == [] || !Readable(values[0]) || values[0] == [] || |values[0]| > 128 then BadRequest else Accepted(values[0])
  }

  /** `inbound_request`. */
  function InboundRequest(request: Request, policy: Option<Policy>): Outcome<Inbound> {
    match RequestId(request.fields)
    case BadRequest => BadRequest
    case CsrfForbidden => CsrfForbidden
    case Accepted(id) =>
      match SelectCredential(request.verb, request.fields, policy)
      case BadRequest => BadRequest
      case CsrfForbidden => CsrfForbidden
      case Accepted(credential) =>
        var csrfHeader := if policy.Some? then Some(policy.value.csrfHeader) else None;
        match PassingFields(request.fields, csrfHeader)
        case BadRequest => BadRequest
        case CsrfForbidden => CsrfForbidden
        case Accepted(fields) =>
          Accepted(Inbound(Upper(request.verb), PathOf(request.target), QueryOf(request.target), fields, request.body,
                           credential, csrfHeader, id))
  }

  /** `HeaderMap::insert`: the new value replaces all values of the name. */
  function Insert(fields: seq<Field>, name: string, value: Octets): seq<Field> {
    Filter((f: Field) => f.name != name, fields) + [Field(name, value)]
  }

  /** `middleware_request`: name by name, the request id and whatever the accepted request has; the
      credential stays behind. Without a path there is no URI to build, and the source panics (`None`). */
  method MiddlewareRequest(inbound: Inbound) returns (request: Option<Request>, control: Control)
    ensures request == Exposed(inbound) && control == Withheld(inbound)
    ensures request.None? <==> inbound.path == [] && inbound.query.None?
    ensures request.Some? ==>
              forall name :: Values(request.value.fields, name) == if name == "x-request-id" then [inbound.requestId] else Values(inbound.fields, name)
  {
    control := Control(inbound.credential, inbound.csrfHeader, inbound.requestId);
    var target := Target(inbound.path, inbound.query);
    if target == [] {
      return None, control;
    }
    var fields: seq<Field> := [];
    for i := 0 to |inbound.fields|
      invariant fields == inbound.fields[..i]
    {
      fields := fields + [inbound.fields[i]];
    }
    assert inbound.fields[..|inbound.fields|] == inbound.fields;
    fields := Insert(fields, "x-request-id", inbound.requestId);
    forall name ensures Values(fields, name) == if name == "x-request-id" then [inbound.requestId] else Values(inbound.fields, name) {
      InsertedValues(inbound.fields, "x-request-id", inbound.requestId, name);
    }
    request := Some(Request(inbound.verb, target, fields, inbound.body));
  }

  /** The request middleware gets; `None` where the source panics, because an empty URI is not valid. */
  function Exposed(inbound: Inbound): Option<Request> {
    var target := Target(inbound.path, inbound.query);
    if target == [] then None
    else Some(Request(inbound.verb, target, Insert(inbound.fields, "x-request-id", inbound.requestId), inbound.body))
  }

  function Withheld(inbound: Inbound): Control { Control(inbound.credential, inbound.csrfHeader, inbound.requestId) }

  /** `restore_inbound_request`. */
  function Restored(request: Request, control: Control): Outcome<Inbound> {
    match PassingFields(request.fields, control.csrfHeader)
    case BadRequest => BadRequest
    case CsrfForbidden => CsrfForbidden
    case Accepted(fields) =>
      Accepted(Inbound(Upper(request.verb), PathOf(request.target), QueryOf(request.target), fields, request.body,
                       control.credential, control.csrfHeader, control.requestId))
  }

  // ---------------------------------------------------------------- values name by name

  lemma {:induction false} ValuesOfFilter(keep: Field -> bool, fields: seq<Field>, name: string, kept: bool)
    requires forall f: Field :: f.name == name ==> keep(f) == kept
    ensures Values(Filter(keep, fields), name) == if kept then Values(fields, name) else []
  {
    if fields != [] {
      ValuesOfFilter(keep, fields[1..], name, kept);
      if keep(fields[0]) {
        var rest := Filter(keep, fields[1..]);
        assert ([fields[0]] + rest)[1..] == rest;
      } else {
        assert [] + Filter(keep, fields[1..]) == Filter(keep, fields[1..]);
      }
    }
  }

  lemma {:induction false} ValuesJoin(a: seq<Field>, b: seq<Field>, name: string)
    ensures Values(a + b, name) == Values(a, name) + Values(b, name)
  {
    if a == [] {
      assert a + b == b;
    } else {
      assert (a + b)[1..] == a[1..] + b;
      ValuesJoin(a[1..], b, name);
    }
  }

  lemma {:induction false} ValueIsListed(fields: seq<Field>, i: nat)
    requires i < |fields|
    ensures fields[i].value in Values(fields, fields[i].name)
  {
    if i > 0 {
      ValueIsListed(fields[1..], i - 1);
    }
  }

  lemma {:induction false} ListedValueIsThere(fields: seq<Field>, name: string, value: Octets)
    requires value in Values(fields, name)
    ensures Field(name, value) in fields
  {
    if fields[0] != Field(name, value) {
      ListedValueIsThere(fields[1..], name, value);
    }
  }

  lemma {:induction false} OwnedNamesIff(values: seq<Octets>, name: string)
    ensures name in OwnedNames(values) <==> !HopByHop(name) && exists token :: Listed(values, token) && NameOf(token) == name
  {
    if values != [] {
      var shorter, last := values[..|values| - 1], values[|values| - 1];
      OwnedNamesIff(shorter, name);
      forall token ensures Listed(values, token) <==> Listed(shorter, token) || token in Tokens(last) {
        if Listed(shorter, token) {
          var i :| 0 <= i < |shorter| && token in Tokens(shorter[i]);
          assert values[i] == shorter[i];
        }
        if token in Tokens(last) {
          assert values[|values| - 1] == last;
        }
      }
    }
  }

  /** Reading the passing fields name by name: private names are gone, all others keep every value in order. */
  lemma PassingValues(fields: seq<Field>, csrfHeader: Option<string>, owned: set<string>, name: string)
    ensures Values(Passing(fields, csrfHeader, owned), name) == if Private(name, csrfHeader, owned) then [] else Values(fields, name)
  {
    ValuesOfFilter((f: Field) => !Private(f.name, csrfHeader, owned), fields, name, !Private(name, csrfHeader, owned));
  }

  // ---------------------------------------------------------------- whatever the middleware does

  /** A name that some Connection field of the request lists. */
  ghost predicate NamedByConnection(fields: seq<Field>, name: string) {
    exists token :: Listed(Values(fields, "connection"), token) && NameOf(token) == name
  }

  /** For every request a middleware may leave behind, each name of the restored request either is
      withheld or keeps exactly its values. */
  lemma RestoredIsolatesCredentials(request: Request, control: Control, name: string)
    requires Restored(request, control).Accepted?
    ensures var inbound := Restored(request, control).value;
            && Values(inbound.fields, name) ==
                 (if || name in {"authorization", "cookie", "connection", "te", "trailer", "transfer-encoding", "upgrade", "keep-alive",
                              "proxy-connection", "content-length", "host", "x-request-id"}
                     || control.csrfHeader == Some(name) || NamedByConnection(request.fields, name)
                  then [] else Values(request.fields, name))
            && inbound.credential == control.credential
            && inbound.requestId == control.requestId
            && inbound.csrfHeader == control.csrfHeader
  {
    FilteredIff(name);
    PassingFieldValues(request.fields, control.csrfHeader, name);
  }

  /** A Connection field names a header when the name, in any case and with white space around it, stands
      between two commas or between a comma and an end. */
  lemma NamedByConnectionIff(fields: seq<Field>, name: string)
    ensures NamedByConnection(fields, name) <==>
              name != "" && exists i, a, piece, b ::
                0 <= i < |Values(fields, "connection")| && Between(0x2c, Values(fields, "connection")[i], a, piece, b) && Reads(Trim(piece), name)
  {
    var values := Values(fields, "connection");
    forall i, token | 0 <= i < |values|
      ensures token in Tokens(values[i]) <==>
                token != [] && exists a, piece, b :: Between(0x2c, values[i], a, piece, b) && Trim(piece) == token
    {
      TokensIff(0x2c, values[i], token);
    }
    forall token ensures NameOf(token) == name <==> Reads(token, name) { ReadsIff(token, name); }
    if token :| Listed(values, token) && NameOf(token) == name {
      var i :| 0 <= i < |values| && token in Tokens(values[i]);
      var a, piece, b :| Between(0x2c, values[i], a, piece, b) && Trim(piece) == token;
      assert Reads(Trim(piece), name);
    }
    if i, a, piece, b :| name != "" && 0 <= i < |values| && Between(0x2c, values[i], a, piece, b) && Reads(Trim(piece), name) {
      assert Trim(piece) in Tokens(values[i]);
      assert Listed(values, Trim(piece));
    }
  }

  /** A hop-by-hop name in any case, or a header name. */
  ghost predicate Nameable(token: Octets) {
    || (exists name :: name in {"connection", "te", "trailer", "transfer-encoding", "upgrade", "keep-alive", "proxy-connection"} && Reads(token, name))
    || (1 <= |token| <= 65535 && forall i :: 0 <= i < |token| ==> Undelimited(token[i]))
  }

  /** Readable, and between its commas nothing but names. */
  ghost predicate ListsNames(value: Octets) {
    && (forall i :: 0 <= i < |value| ==> value[i] == 0x09 || (value[i] >= 0x20 && value[i] < 0x7f))
    && (forall a, piece, b :: Between(0x2c, value, a, piece, b) && Trim(piece) != [] ==> Nameable(Trim(piece)))
  }

  ghost predicate AllListNames(values: seq<Octets>) { forall i :: 0 <= i < |values| ==> ListsNames(values[i]) }

  lemma NameableIff(token: Octets)
    ensures GoodToken(token) <==> Nameable(token)
  {
    ValidNameIff(token);
    forall name ensures NameOf(token) == name <==> Reads(token, name) { ReadsIff(token, name); }
    if GoodToken(token) && HopByHop(NameOf(token)) {
      assert Reads(token, NameOf(token));
    }
  }

  lemma ListsNamesIff(value: Octets)
    ensures GoodConnection(value) <==> ListsNames(value)
  {
    ReadableIff(value);
    var tokens := Tokens(value);
    forall token ensures token in tokens <==> token != [] && exists a, piece, b :: Between(0x2c, value, a, piece, b) && Trim(piece) == token {
      TokensIff(0x2c, value, token);
    }
    forall token ensures GoodToken(token) <==> Nameable(token) { NameableIff(token); }
    if GoodTokens(tokens) {
      forall a, piece, b | Between(0x2c, value, a, piece, b) && Trim(piece) != [] ensures Nameable(Trim(piece)) {
        assert Trim(piece) in tokens;
      }
    }
    if ListsNames(value) {
      forall i | 0 <= i < |tokens| ensures GoodToken(tokens[i]) {
        assert tokens[i] in tokens;
        var a, piece, b :| Between(0x2c, value, a, piece, b) && Trim(piece) == tokens[i];
      }
    }
  }

  /** The ingress keeps the name to itself. */
  ghost predicate Kept(request: Request, control: Control, name: string) {
    || name in {"authorization", "cookie", "connection", "te", "trailer", "transfer-encoding", "upgrade", "keep-alive",
                "proxy-connection", "content-length", "host", "x-request-id"}
    || control.csrfHeader == Some(name) || NamedByConnection(request.fields, name)
  }

  /** It is refused exactly when a Connection field is unreadable or lists something that is no
      header name, or a value that would pass on is unreadable. */
  lemma RestoredIff(request: Request, control: Control)
    ensures Restored(request, control).Accepted? <==>
              && AllListNames(Values(request.fields, "connection"))
              && forall i :: 0 <= i < |request.fields| ==>
                   Kept(request, control, request.fields[i].name) || Readable(request.fields[i].value)
  {
    var values := Values(request.fields, "connection");
    forall i | 0 <= i < |values| ensures GoodConnection(values[i]) <==> ListsNames(values[i]) { ListsNamesIff(values[i]); }
    forall i | 0 <= i < |request.fields|
      ensures Private(request.fields[i].name, control.csrfHeader, OwnedNames(values)) <==> Kept(request, control, request.fields[i].name)
    {
      OwnedNamesIff(values, request.fields[i].name);
      FilteredIff(request.fields[i].name);
    }
    assert GoodConnections(values) <==> AllListNames(values);
    PassingIsReadableIff(request.fields, control.csrfHeader, OwnedNames(values));
    assert Restored(request, control).Accepted? <==>
        GoodConnections(values) && ReadableFields(Passing(request.fields, control.csrfHeader, OwnedNames(values)));
    assert ReadableFields(Passing(request.fields, control.csrfHeader, OwnedNames(values))) <==>
        forall i :: 0 <= i < |request.fields| ==> Kept(request, control, request.fields[i].name) || Readable(request.fields[i].value);
  }

  lemma {:induction false} PassingIsReadableIff(fields: seq<Field>, csrfHeader: Option<string>, owned: set<string>)
    ensures ReadableFields(Passing(fields, csrfHeader, owned)) <==>
              forall i :: 0 <= i < |fields| ==> Private(fields[i].name, csrfHeader, owned) || Readable(fields[i].value)
  {
    var passing := Passing(fields, csrfHeader, owned);
    var keep := (f: Field) => !Private(f.name, csrfHeader, owned);
    forall f: Field ensures f in passing <==> f in fields && keep(f) { FilterMembers(keep, fields, f); }
    assert ReadableFields(passing) <==> forall f :: f in passing ==> Readable(f.value);
    assert forall f :: f in fields ==> exists i :: 0 <= i < |fields| && fields[i] == f;
  }

  // ---------------------------------------------------------------- the round trip

  /** The same request to every reader: header maps may list their names in another order. */
  ghost predicate SameFields(a: seq<Field>, b: seq<Field>) { forall name :: Values(a, name) == Values(b, name) }

  ghost predicate SameRequest(a: Request, b: Request) {
    a.verb == b.verb && a.target == b.target && a.body == b.body && SameFields(a.fields, b.fields)
  }

  lemma UpperTwice(t: Octets)
    ensures Upper(Upper(t)) == Upper(t)
  {
    var once := Upper(t);
    forall i | 0 <= i < |t| ensures Upper(once)[i] == once[i] {
      assert !(0x61 <= once[i] <= 0x7a);
    }
  }

  lemma OriginFormIsRead(target: Octets)
    ensures OriginForm(PathAndQuery(target)) == PathAndQuery(target)
  {
    var origin := OriginForm(target);
    SplitOnceNoneIff(HASH, origin);
    match SplitOnce(HASH, origin) {
      case None =>
      case Some((before, after)) =>
        SplitOnceIff(HASH, origin, before, after);
        if origin != [] && origin != [STAR] {
          assert origin[0] == SLASH && before != [] && before[0] == origin[0];
        }
    }
  }

  /** Taking a target apart and putting it together again loses only scheme, authority and fragment. */
  lemma TargetRebuilds(target: Octets)
    ensures Target(PathOf(target), QueryOf(target)) == PathAndQuery(target)
    ensures PathOf(PathAndQuery(target)) == PathOf(target)
    ensures QueryOf(PathAndQuery(target)) == QueryOf(target)
  {
    var origin, plain := OriginForm(target), PathAndQuery(target);
    OriginFormIsRead(target);
    SplitOnceNoneIff(HASH, origin);
    match SplitOnce(HASH, origin) {
      case None =>
      case Some((before, after)) => SplitOnceIff(HASH, origin, before, after);
    }
    SplitOnceNoneIff(HASH, plain);
    match SplitOnce(QUESTION, plain) {
      case None =>
      case Some((path, query)) => SplitOnceIff(QUESTION, plain, path, query);
    }
  }

  /** What an accepted request holds: no private name, readable values. */
  lemma InboundFieldsPass(fields: seq<Field>, csrfHeader: Option<string>, i: nat)
    requires PassingFields(fields, csrfHeader).Accepted?
    requires i < |PassingFields(fields, csrfHeader).value|
    ensures var f := PassingFields(fields, csrfHeader).value[i];
            !Filtered(f.name) && csrfHeader != Some(f.name) && Readable(f.value)
  {
    var owned := ConnectionOwned(fields).value;
    FilterMembers((f: Field) => !Private(f.name, csrfHeader, owned), fields, PassingFields(fields, csrfHeader).value[i]);
  }

  lemma InsertedValues(fields: seq<Field>, name: string, value: Octets, other: string)
    ensures Values(Insert(fields, name, value), other) == if other == name then [value] else Values(fields, other)
  {
    var rest := Filter((f: Field) => f.name != name, fields);
    ValuesOfFilter((f: Field) => f.name != name, fields, other, other != name);
    ValuesJoin(rest, [Field(name, value)], other);
    assert [Field(name, value)][1..] == [];
    assert Values([Field(name, value)], other) == if other == name then [value] else [];
  }

  /** Fields that already passed, with the request id put back, pass again unchanged. */
  lemma PassingTwice(sent: seq<Field>, id: Octets, csrfHeader: Option<string>, seen: seq<Field>)
    requires SameFields(seen, Insert(sent, "x-request-id", id))
    requires forall i :: 0 <= i < |sent| ==> !Filtered(sent[i].name) && csrfHeader != Some(sent[i].name) && Readable(sent[i].value)
    ensures PassingFields(seen, csrfHeader).Accepted?
    ensures SameFields(PassingFields(seen, csrfHeader).value, sent)
  {
    forall name ensures Values(seen, name) == if name == "x-request-id" then [id] else Values(sent, name) {
      InsertedValues(sent, "x-request-id", id, name);
    }
    NoPrivateValues(sent, "connection", csrfHeader);
    assert Values(seen, "connection") == [];
    assert ConnectionOwned(seen) == Ok({});
    var passing := Passing(seen, csrfHeader, {});
    forall name ensures Values(passing, name) == Values(sent, name) {
      PassingValues(seen, csrfHeader, {}, name);
      if Private(name, csrfHeader, {}) {
        NoPrivateValues(sent, name, csrfHeader);
      }
    }
    forall i | 0 <= i < |passing| ensures Readable(passing[i].value) {
      ValueIsListed(passing, i);
      ListedValueIsThere(sent, passing[i].name, passing[i].value);
    }
  }

  lemma NoPrivateValues(sent: seq<Field>, name: string, csrfHeader: Option<string>)
    requires forall i :: 0 <= i < |sent| ==> !Filtered(sent[i].name) && csrfHeader != Some(sent[i].name) && Readable(sent[i].value)
    requires Filtered(name) || csrfHeader == Some(name)
    ensures Values(sent, name) == []
  {
    if Values(sent, name) != [] {
      ListedValueIsThere(sent, name, Values(sent, name)[0]);
    }
  }

  // ---------------------------------------------------------------- what a target says, octet by octet

  /** A fragment, or nothing. */
  predicate Fragment(t: Octets) { t == [] || t[0] == 0x23 }

  /** Path, query and fragment: a slash first, no `?` or `#` in the path, no `#` in the query. */
  ghost predicate OriginTarget(target: Octets, path: Octets, query: Option<Octets>, fragment: Octets) {
    && path != [] && path[0] == 0x2f && 0x3f !in path && 0x23 !in path && Fragment(fragment)
    && (match query
        case None => target == path + fragment
        case Some(q) => 0x23 !in q && target == path + [0x3f] + q + fragment)
  }

  /** The same after scheme and authority, where the path may be missing and is `/` then. */
  ghost predicate AbsoluteTarget(target: Octets, path: Octets, query: Option<Octets>, scheme: Octets, authority: Octets, rest: Octets, fragment: Octets) {
    && (scheme == [] || scheme[0] != 0x2f) && 0x3a !in scheme && 0x2f !in authority && 0x3f !in authority && 0x23 !in authority
    && target == scheme + [0x3a] + ([0x2f, 0x2f] + (authority + rest))
    && (if rest != [] && rest[0] == 0x2f then OriginTarget(rest, path, query, fragment)
        else (rest == [] || rest[0] == 0x3f || rest[0] == 0x23) && path == [0x2f] && OriginTarget([0x2f] + rest, path, query, fragment))
  }

  /** The target asks for this path and query. */
  ghost predicate Says(target: Octets, path: Octets, query: Option<Octets>) {
    || (exists fragment :: OriginTarget(target, path, query, fragment))
    || (target == [0x2a] && path == [0x2a] && query == None)
    || (exists scheme, authority, rest, fragment :: AbsoluteTarget(target, path, query, scheme, authority, rest, fragment))
  }

  function PathQuery(path: Octets, query: Option<Octets>): Octets { if query.Some? then path + [0x3f] + query.value else path }

  lemma {:induction false} FragmentIsCut(main: Octets, fragment: Octets)
    requires 0x23 !in main && Fragment(fragment)
    ensures WithoutFragment(main + fragment) == main
  {
    if fragment == [] {
      assert main + fragment == main;
      SplitOnceNoneIff(0x23, main);
    } else {
      assert main + fragment == main + [0x23] + fragment[1..];
      SplitOnceIff(0x23, main + fragment, main, fragment[1..]);
    }
  }

  lemma {:induction false} OriginTargetReads(target: Octets, path: Octets, query: Option<Octets>, fragment: Octets)
    requires OriginTarget(target, path, query, fragment)
    ensures target != [] && target[0] == 0x2f && WithoutFragment(target) == PathQuery(path, query)
  {
    FragmentIsCut(PathQuery(path, query), fragment);
    assert target[0] == path[0];
  }

  lemma {:induction false} PathQueryReads(target: Octets, path: Octets, query: Option<Octets>)
    requires PathAndQuery(target) == PathQuery(path, query) && 0x3f !in path
    ensures PathOf(target) == path && QueryOf(target) == query
  {
    match query {
      case None => SplitOnceNoneIff(0x3f, path);
      case Some(q) => SplitOnceIff(0x3f, path + [0x3f] + q, path, q);
    }
  }

  lemma {:induction false} FromPathSkips(authority: Octets, rest: Octets)
    requires 0x2f !in authority && 0x3f !in authority && 0x23 !in authority
    requires rest == [] || rest[0] == 0x2f || rest[0] == 0x3f || rest[0] == 0x23
    ensures FromPath(authority + rest) == rest
    decreases |authority|
  {
    if authority == [] {
      assert authority + rest == rest;
    } else {
      assert (authority + rest)[0] == authority[0] && (authority + rest)[1..] == authority[1..] + rest;
      FromPathSkips(authority[1..], rest);
    }
  }

  lemma {:induction false} AbsoluteTargetReads(target: Octets, path: Octets, query: Option<Octets>, scheme: Octets, authority: Octets, rest: Octets, fragment: Octets)
    requires AbsoluteTarget(target, path, query, scheme, authority, rest, fragment)
    ensures PathAndQuery(target) == PathQuery(path, query)
  {
    var after := [0x2f, 0x2f] + (authority + rest);
    SplitOnceIff(0x3a, target, scheme, after);
    assert target[0] == (if scheme == [] then 0x3a else scheme[0]) && |target| >= 3;
    assert after[2..] == authority + rest && [SLASH, SLASH] <= after;
    FromPathSkips(authority, rest);
    if rest != [] && rest[0] == 0x2f {
      OriginTargetReads(rest, path, query, fragment);
    } else {
      OriginTargetReads([0x2f] + rest, path, query, fragment);
    }
  }

  /** What the client asks for is what is read, for every target with a path. */
  lemma TargetIsRead(target: Octets, path: Octets, query: Option<Octets>)
    requires Says(target, path, query)
    ensures PathAndQuery(target) == PathQuery(path, query) && PathOf(target) == path && QueryOf(target) == query
  {
    if fragment :| OriginTarget(target, path, query, fragment) {
      OriginTargetReads(target, path, query, fragment);
    } else if scheme, authority, rest, fragment :| AbsoluteTarget(target, path, query, scheme, authority, rest, fragment) {
      AbsoluteTargetReads(target, path, query, scheme, authority, rest, fragment);
    } else {
      FragmentIsCut([0x2a], []);
    }
    PathQueryReads(target, path, query);
  }

  lemma {:induction false} OriginTargetSays(t: Octets) returns (path: Octets, query: Option<Octets>, fragment: Octets)
    requires t != [] && t[0] == 0x2f
    ensures OriginTarget(t, path, query, fragment)
  {
    var main := t;
    fragment := [];
    SplitOnceNoneIff(0x23, t);
    match SplitOnce(0x23, t) {
      case None => assert t == main + fragment;
      case Some((before, after)) =>
        SplitOnceIff(0x23, t, before, after);
        main, fragment := before, [0x23] + after;
        assert t == main + fragment;
    }
    assert main != [] && main[0] == t[0];
    SplitOnceNoneIff(0x3f, main);
    match SplitOnce(0x3f, main) {
      case None => path, query := main, None;
      case Some((before, after)) =>
        SplitOnceIff(0x3f, main, before, after);
        path, query := before, Some(after);
        assert path != [] && path[0] == main[0];
    }
  }

  lemma {:induction false} FromPathIs(t: Octets) returns (authority: Octets)
    ensures t == authority + FromPath(t) && 0x2f !in authority && 0x3f !in authority && 0x23 !in authority
    ensures FromPath(t) == [] || FromPath(t)[0] == 0x2f || FromPath(t)[0] == 0x3f || FromPath(t)[0] == 0x23
    decreases |t|
  {
    authority := [];
    if t != [] && t[0] != 0x2f && t[0] != 0x3f && t[0] != 0x23 {
      var rest := FromPathIs(t[1..]);
      authority := [t[0]] + rest;
      assert t == [t[0]] + t[1..];
    }
  }

  /** Every target with a path asks for something. */
  lemma TargetSays(target: Octets) returns (path: Octets, query: Option<Octets>)
    requires HasPath(target)
    ensures Says(target, path, query)
  {
    if target != [] && target[0] == 0x2f {
      var fragment;
      path, query, fragment := OriginTargetSays(target);
    } else if target == [0x2a] {
      path, query := [0x2a], None;
    } else {
      var scheme, after :| AbsoluteForm(target, scheme, after);
      var authority := FromPathIs(after);
      var rest := FromPath(after);
      assert scheme != [] ==> target[0] == scheme[0];
      var fragment;
      if rest != [] && rest[0] == 0x2f {
        path, query, fragment := OriginTargetSays(rest);
      } else {
        path, query, fragment := OriginTargetSays([0x2f] + rest);
        OnlySlash(rest, path, query, fragment);
      }
      assert AbsoluteTarget(target, path, query, scheme, authority, rest, fragment);
    }
  }

  lemma {:induction false} OnlySlash(rest: Octets, path: Octets, query: Option<Octets>, fragment: Octets)
    requires OriginTarget([0x2f] + rest, path, query, fragment) && (rest == [] || rest[0] == 0x3f || rest[0] == 0x23)
    ensures path == [0x2f]
  {
    var t, tail := [0x2f] + rest, if query.Some? then [0x3f] + query.value + fragment else fragment;
    assert t == path + tail;
    StartsAlike(path, tail, rest);
  }

  lemma {:induction false} StartsAlike(path: Octets, tail: Octets, rest: Octets)
    requires path != [] && path + tail == [0x2f] + rest
    ensures path[0] == 0x2f && path[1..] + tail == rest && (|path| > 1 ==> rest != [] && path[1..][0] == rest[0])
  {
    assert (path + tail)[0] == path[0] && ([0x2f] + rest)[0] == 0x2f;
    assert (path + tail)[1..] == path[1..] + tail && ([0x2f] + rest)[1..] == rest;
  }

  // ---------------------------------------------------------------- which requests can be rebuilt

  /** Scheme, colon, two slashes. */
  ghost predicate AbsoluteForm(target: Octets, scheme: Octets, rest: Octets) {
    COLON !in scheme && target == scheme + [COLON] + ([SLASH, SLASH] + rest)
  }

  /** The target starts with a slash, is a star, or is absolute; it is not an authority alone. */
  ghost predicate HasPath(target: Octets) {
    (target != [] && target[0] == SLASH) || target == [STAR] || exists scheme, rest :: AbsoluteForm(target, scheme, rest)
  }

  lemma OriginFormIff(target: Octets)
    ensures OriginForm(target) != [] <==> HasPath(target)
  {
    var cut := SplitOnce(COLON, target);
    if cut.Some? {
      var (scheme, after) := cut.value;
      SplitOnceIff(COLON, target, scheme, after);
      if [SLASH, SLASH] <= after {
        assert after == [SLASH, SLASH] + after[2..];
        assert AbsoluteForm(target, scheme, after[2..]);
      }
    }
    forall scheme, rest | AbsoluteForm(target, scheme, rest) ensures OriginForm(target) != [] {
      SplitOnceIff(COLON, target, scheme, [SLASH, SLASH] + rest);
    }
  }

  lemma PathAndQueryIff(target: Octets)
    ensures PathAndQuery(target) != [] <==> HasPath(target)
  {
    var origin := OriginForm(target);
    OriginFormIff(target);
    match SplitOnce(HASH, origin) {
      case None =>
      case Some((before, after)) =>
        SplitOnceIff(HASH, origin, before, after);
    }
  }

  /** An accepted request can be rebuilt for the middleware exactly when its target has a path; for an
      authority alone the source panics. */
  lemma {:induction false} RebuildsIff(request: Request, policy: Option<Policy>)
    requires InboundRequest(request, policy).Accepted?
    ensures Exposed(InboundRequest(request, policy).value).Some? <==> HasPath(request.target)
  {
    AcceptedRequestIs(request, policy);
    TargetRebuilds(request.target);
    PathAndQueryIff(request.target);
  }

  const GET: Octets := [0x47, 0x45, 0x54]
  const LOCALHOST: Octets := [0x6c, 0x6f, 0x63, 0x61, 0x6c, 0x68, 0x6f, 0x73, 0x74]

  /** `GET localhost` with a request id is accepted and cannot be rebuilt. */
  lemma AuthorityAloneIsNotRebuilt()
    ensures var request := Request(GET, LOCALHOST, [Field("x-request-id", [0x31])], []);
            && InboundRequest(request, None).Accepted?
            && Exposed(InboundRequest(request, None).value).None?
  {
    var fields := [Field("x-request-id", [0x31])];
    var request := Request(GET, LOCALHOST, fields, []);
    assert fields[1..] == [];
    assert Values(fields, "x-request-id") == [[0x31]] && Values(fields, "authorization") == [] && Values(fields, "connection") == [];
    assert PassingFields(fields, None).Accepted?;
    assert InboundRequest(request, None).Accepted?;
    LocalhostHasNoPath();
    RebuildsIff(request, None);
  }

  lemma LocalhostHasNoPath()
    ensures !HasPath(LOCALHOST)
  {
    SplitOnceNoneIff(COLON, LOCALHOST);
    OriginFormIff(LOCALHOST);
  }

  // ---------------------------------------------------------------- there and back

  /** Under middleware that changes nothing, the endpoint gets the request the ingress accepted,
      whenever that can be rebuilt at all. */
  lemma RoundTrip(request: Request, policy: Option<Policy>, path: Octets, query: Option<Octets>, seen: Request)
    requires InboundRequest(request, policy).Accepted?
    requires Exposed(InboundRequest(request, policy).value).Some?
    requires SameRequest(seen, Exposed(InboundRequest(request, policy).value).value)
    ensures var inbound := InboundRequest(request, policy).value;
            var back := Restored(seen, Withheld(inbound));
            && back.Accepted?
            && back.value == inbound.(fields := back.value.fields)
            && SameFields(back.value.fields, inbound.fields)
            && (Says(request.target, path, query) ==> back.value.path == path && back.value.query == query)
  {
    if Says(request.target, path, query) {
      TargetIsRead(request.target, path, query);
    }
    var inbound := InboundRequest(request, policy).value;
    forall i | 0 <= i < |inbound.fields|
      ensures !Filtered(inbound.fields[i].name) && inbound.csrfHeader != Some(inbound.fields[i].name) && Readable(inbound.fields[i].value)
    {
      InboundFieldsPass(request.fields, inbound.csrfHeader, i);
    }
    PassingTwice(inbound.fields, inbound.requestId, inbound.csrfHeader, seen.fields);
    UpperTwice(request.verb);
    TargetRebuilds(request.target);
  }

  function CsrfHeader(policy: Option<Policy>): Option<string> { if policy.Some? then Some(policy.value.csrfHeader) else None }

  lemma {:induction false} AcceptedRequestIs(request: Request, policy: Option<Policy>)
    requires InboundRequest(request, policy).Accepted?
    ensures var inbound := InboundRequest(request, policy).value;
            && inbound.verb == Upper(request.verb) && inbound.body == request.body && inbound.csrfHeader == CsrfHeader(policy)
            && inbound.path == PathOf(request.target) && inbound.query == QueryOf(request.target)
            && RequestId(request.fields) == Accepted(inbound.requestId)
            && PassingFields(request.fields, CsrfHeader(policy)) == Accepted(inbound.fields)
  {
  }

  lemma {:induction false} PassingFieldValues(fields: seq<Field>, csrfHeader: Option<string>, name: string)
    requires PassingFields(fields, csrfHeader).Accepted?
    ensures Values(PassingFields(fields, csrfHeader).value, name) ==
              if Filtered(name) || csrfHeader == Some(name) || NamedByConnection(fields, name) then [] else Values(fields, name)
  {
    var values := Values(fields, "connection");
    PassingValues(fields, csrfHeader, OwnedNames(values), name);
    OwnedNamesIff(values, name);
  }

  lemma {:induction false} RequestIdIs(fields: seq<Field>)
    requires RequestId(fields).Accepted?
    ensures Values(fields, "x-request-id")[..1] == [RequestId(fields).value]
  {
  }

  /** What middleware sees of an accepted request, in terms of the octets the client sent: the method in
      upper case, the path and query it asks for, the body, and name by name the request id, nothing under
      a private name, and every other value in order. */
  lemma {:induction false} MiddlewareSees(request: Request, policy: Option<Policy>, path: Octets, query: Option<Octets>, name: string)
    requires InboundRequest(request, policy).Accepted? && Says(request.target, path, query)
    ensures Exposed(InboundRequest(request, policy).value).Some?
    ensures var seen := Exposed(InboundRequest(request, policy).value).value;
            && |seen.verb| == |request.verb|
            && (forall i :: 0 <= i < |seen.verb| ==>
                  seen.verb[i] == if 0x61 <= request.verb[i] <= 0x7a then request.verb[i] - 0x20 else request.verb[i])
            && seen.target == (if query.Some? then path + [0x3f] + query.value else path)
            && seen.body == request.body
            && Values(seen.fields, name) ==
                 (if name == "x-request-id" then Values(request.fields, name)[..1]
                  else if || name in {"authorization", "cookie", "connection", "te", "trailer", "transfer-encoding", "upgrade", "keep-alive",
                              "proxy-connection", "content-length", "host", "x-request-id"}
                          || (policy.Some? && policy.value.csrfHeader == name) || NamedByConnection(request.fields, name) then []
                  else Values(request.fields, name))
  {
    var inbound := InboundRequest(request, policy).value;
    TargetIsRead(request.target, path, query);
    AcceptedRequestIs(request, policy);
    InsertedValues(inbound.fields, "x-request-id", inbound.requestId, name);
    PassingFieldValues(request.fields, CsrfHeader(policy), name);
    FilteredIff(name);
    RequestIdIs(request.fields);
    UpperIs(request.verb);
  }

  /** A request is accepted exactly when its first request id is readable and 1 to 128 octets long, its
      credential is, its Connection fields list header names, and every value that passes on is readable. */
  lemma {:induction false} AcceptedIff(request: Request, policy: Option<Policy>)
    ensures InboundRequest(request, policy).Accepted? <==>
              var ids := Values(request.fields, "x-request-id");
              && ids != [] && 1 <= |ids[0]| <= 128 && Readable(ids[0])
              && SelectCredential(request.verb, request.fields, policy).Accepted?
              && AllListNames(Values(request.fields, "connection"))
              && forall i :: 0 <= i < |request.fields| ==>
                   || Kept(request, Control(None, if policy.Some? then Some(policy.value.csrfHeader) else None, []), request.fields[i].name)
                   || Readable(request.fields[i].value)
  {
    RestoredIff(request, Control(None, if policy.Some? then Some(policy.value.csrfHeader) else None, []));
  }

  /** An accepted request has a first request id that is readable and 1 to 128 octets long. */
  lemma {:induction false} AcceptedRequestHasId(request: Request, policy: Option<Policy>)
    requires InboundRequest(request, policy).Accepted?
    ensures var ids := Values(request.fields, "x-request-id");
            ids != [] && 1 <= |ids[0]| <= 128 && Readable(ids[0]) && InboundRequest(request, policy).value.requestId == ids[0]
  {
    AcceptedRequestIs(request, policy);
  }
}
