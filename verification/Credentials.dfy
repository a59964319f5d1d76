/** Credential selection from the Authorization and Cookie fields of a request. */
module Credentials {
  import opened FieldText
  import opened Texts
  import opened JsonValues
  import opened Sorting
  import opened Cookies

  /** Field names are lower case, as `HeaderName` keeps them. */
  datatype Field = Field(name: string, value: Octets)

  datatype Credential = Credential(scheme: string, value: Octets)

  datatype Outcome<+T> = Accepted(value: T) | BadRequest | CsrfForbidden

  /** `HeaderMap::get_all`: the values of one name, in order. */
  function Values(fields: seq<Field>, name: string): seq<Octets> {
    if fields == [] then []
    else (if fields[0].name == name then [fields[0].value] else []) + Values(fields[1..], name)
  }

  function SingleHeader(fields: seq<Field>, name: string): Outcome<Option<Octets>> {
    var values := Values(fields, name);
    if values == [] then Accepted(None)
    else if |values| > 1 || !Readable(values[0]) then BadRequest
    else Accepted(Some(values[0]))
  }

  predicate AsciiWhitespace(b: bv8) { b == SPACE || b == TAB || b == 0x0a || b == 0x0c || b == 0x0d }

  predicate TokenScheme(scheme: Octets) { Text(Lower(scheme)) == "bearer" || Text(Lower(scheme)) == "basic" }

  predicate Ambiguous(value: Octets) { exists i | 0 <= i < |value| :: value[i] == COMMA || AsciiWhitespace(value[i]) }

  function ParseAuthorization(text: Octets): Outcome<Credential> {
    match SplitOnce(SPACE, text)
    case None => BadRequest
    case Some((scheme, value)) =>
      if scheme == [] || value == [] then BadRequest
      else if TokenScheme(scheme) && Ambiguous(value) then BadRequest
      else Accepted(Credential(Text(Lower(scheme)), value))
  }

  function AuthorizationCredential(fields: seq<Field>): Outcome<Option<Credential>> {
    match SingleHeader(fields, "authorization")
    case BadRequest => BadRequest
    case CsrfForbidden => CsrfForbidden
    case Accepted(None) => Accepted(None)
    case Accepted(Some(text)) =>
      match ParseAuthorization(text)
      case Accepted(credential) => Accepted(Some(credential))
      case BadRequest => BadRequest
      case CsrfForbidden => CsrfForbidden
  }

  /** Methods are case sensitive, except that QUERY is recognised in any case. */
  predicate SafeMethod(verb: Octets) {
    Text(verb) == "GET" || Text(verb) == "HEAD" || Text(verb) == "OPTIONS" || Text(verb) == "TRACE"
    || Text(Upper(verb)) == "QUERY"
  }

  /** The constant-time comparison: an OR over the XOR of all octets. */
  function Difference(difference: bv8, left: Octets, right: Octets): bv8
    requires |left| == |right|
    decreases |left|
  {
    if left == [] then difference else Difference(difference | (left[0] ^ right[0]), left[1..], right[1..])
  }

  predicate TokensMatch(left: Octets, right: Octets) { |left| == |right| && Difference(0, left, right) == 0 }

  function CheckCsrf(safe: bool, cookie: Option<Octets>, header: Outcome<Option<Octets>>): Outcome<()> {
    if safe then Accepted(())
    else if cookie.None? then CsrfForbidden
    else match header
      case BadRequest => BadRequest
      case CsrfForbidden => CsrfForbidden
      case Accepted(None) => CsrfForbidden
      case Accepted(Some(token)) =>
        if token == [] || !TokensMatch(cookie.value, token) then CsrfForbidden else Accepted(())
  }

  /** The cookie branch: what the cookies, the Authorization field and the CSRF header settle together. */
  function Decide(safe: bool, authorization: Option<Credential>, cookies: Selection, header: Outcome<Option<Octets>>): Outcome<Option<Credential>> {
    if cookies.session.None? then Accepted(authorization)
    else if authorization.Some? then BadRequest
    else match CheckCsrf(safe, cookies.csrf, header)
      case BadRequest => BadRequest
      case CsrfForbidden => CsrfForbidden
      case Accepted(_) => Accepted(Some(Credential("session", cookies.session.value)))
  }

  function SelectCredential(verb: Octets, fields: seq<Field>, policy: Option<Policy>): Outcome<Option<Credential>> {
    match AuthorizationCredential(fields)
    case BadRequest => BadRequest
    case CsrfForbidden => CsrfForbidden
    case Accepted(authorization) =>
      if policy.None? then Accepted(authorization)
      else match Selected(policy.value, Values(fields, "cookie"))
        case Err => BadRequest
        case Ok(cookies) => Decide(SafeMethod(verb), authorization, cookies, SingleHeader(fields, policy.value.csrfHeader))
  }

  // ---------------------------------------------------------------- the comparison is equality

  lemma {:induction false} DifferenceIsZeroIff(difference: bv8, left: Octets, right: Octets)
    requires |left| == |right|
    ensures Difference(difference, left, right) == 0 <==> difference == 0 && left == right
    decreases |left|
  {
    if left != [] {
      var next := difference | (left[0] ^ right[0]);
      DifferenceIsZeroIff(next, left[1..], right[1..]);
      OrXorIsZeroIff(difference, left[0], right[0]);
      assert left == [left[0]] + left[1..] && right == [right[0]] + right[1..];
    }
  }

  lemma OrXorIsZeroIff(d: bv8, a: bv8, b: bv8)
    ensures (d | (a ^ b)) == 0 <==> d == 0 && a == b
  {}

  lemma TokensMatchIffEqual(left: Octets, right: Octets)
    ensures TokensMatch(left, right) <==> left == right
  {
    if |left| == |right| {
      DifferenceIsZeroIff(0, left, right);
    }
  }

  // ---------------------------------------------------------------- when a session credential comes out

  /** What the pairs of one cookie amount to: none, or a single one with this value. */
  ghost predicate Sole(policy: Policy, found: seq<Octets>, value: Option<Octets>) {
    match value
    case None => found == []
    case Some(v) => |found| == 1 && ValueIn(policy, found[0]) == v
  }

  /** No cookie pair is malformed, each of the two cookies occurs at most once, and these are their values. */
  ghost predicate CookiesAre(policy: Policy, fields: seq<Field>, session: Option<Octets>, csrf: Option<Octets>) {
    var values := Values(fields, "cookie");
    var pairs := AllCrumbs(values);
    && AllReadable(values)
    && Bad(policy, pairs) == []
    && Sole(policy, Sessions(policy, pairs), session)
    && Sole(policy, Csrfs(policy, pairs), csrf)
  }

  lemma SelectedIff(policy: Policy, fields: seq<Field>, session: Option<Octets>, csrf: Option<Octets>)
    ensures Selected(policy, Values(fields, "cookie")) == Ok(Selection(session, csrf)) <==> CookiesAre(policy, fields, session, csrf)
  {
    AddAllCollects(policy, Selection(None, None), AllCrumbs(Values(fields, "cookie")));
  }

  /** Accepted CSRF cookies are not empty, and hold only octets a header may hold. */
  lemma CsrfCookieIsPlain(policy: Policy, fields: seq<Field>, session: Option<Octets>, csrf: Octets)
    requires CookiesAre(policy, fields, session, Some(csrf))
    ensures csrf != [] && Readable(csrf)
  {
    var pairs := AllCrumbs(Values(fields, "cookie"));
    var pair := Csrfs(policy, pairs)[0];
    FilterMembers(Is(policy, (m: Meaning) => m.ForCsrf?), pairs, pair);
    assert Classify(policy, pair) == ForCsrf(csrf);
    var cut := SplitOnce(EQUALS, pair).value;
    assert NormalizedValue(Trim(cut.1)) == Some(csrf);
    PlainIsReadable(csrf);
  }

  lemma PlainIsReadable(t: Octets)
    requires Plain(t)
    ensures Readable(t)
  {
    forall i | 0 <= i < |t| ensures t[i] == TAB || 0x20 <= t[i] <= 0x7e {
      assert CookieOctet(t[i]);
    }
  }

  /** The cookie pays: it is there, nothing else claims an identity, and an unsafe method repeats
      the CSRF cookie in exactly one CSRF header. */
  ghost predicate CookieGrants(verb: Octets, fields: seq<Field>, policy: Policy, csrf: Option<Octets>, value: Octets) {
    && CookiesAre(policy, fields, Some(value), csrf)
    && Values(fields, "authorization") == []
    && (SafeMethod(verb) || (csrf.Some? && Values(fields, policy.csrfHeader) == [csrf.value]))
  }

  /** The Authorization field itself names the scheme "session", in any case, and no session cookie is there. */
  ghost predicate AuthorizationGrants(fields: seq<Field>, policy: Policy, csrf: Option<Octets>, scheme: Octets, value: Octets) {
    && CookiesAre(policy, fields, None, csrf)
    && Values(fields, "authorization") == [scheme + [0x20] + value]
    && Readable(scheme + [0x20] + value)
    && Text(Lower(scheme)) == "session"
    && value != []
  }

  lemma CsrfCheckPasses(safe: bool, fields: seq<Field>, policy: Policy, session: Option<Octets>, csrf: Option<Octets>)
    requires CookiesAre(policy, fields, session, csrf)
    ensures CheckCsrf(safe, csrf, SingleHeader(fields, policy.csrfHeader)) == Accepted(()) <==>
              safe || (csrf.Some? && Values(fields, policy.csrfHeader) == [csrf.value])
  {
    if csrf.Some? {
      CsrfCookieIsPlain(policy, fields, session, csrf.value);
      HeaderRepeatsIff(csrf.value, fields, policy.csrfHeader);
    }
  }

  lemma HeaderRepeatsIff(token: Octets, fields: seq<Field>, name: string)
    requires token != [] && Readable(token)
    ensures CheckCsrf(false, Some(token), SingleHeader(fields, name)) == Accepted(()) <==> Values(fields, name) == [token]
  {
    var header := SingleHeader(fields, name);
    if header.Accepted? && header.value.Some? {
      TokensMatchIffEqual(token, header.value.value);
      assert Values(fields, name) == [header.value.value];
    }
  }

  lemma LowerKeepsSpace(scheme: Octets)
    requires Text(Lower(scheme)) == "session"
    ensures 0x20 !in scheme && scheme != [] && !TokenScheme(scheme)
  {
    assert |Text(Lower(scheme))| == |scheme|;
    forall i | 0 <= i < |scheme| ensures scheme[i] != 0x20 {
      assert Lower(scheme)[i] == if 0x41 <= scheme[i] <= 0x5a then scheme[i] + 0x20 else scheme[i];
      assert "session"[i] == Lower(scheme)[i] as char;
    }
  }

  lemma SessionSchemeIff(fields: seq<Field>, value: Octets)
    ensures AuthorizationCredential(fields) == Accepted(Some(Credential("session", value))) <==>
              exists scheme: Octets ::
                && Values(fields, "authorization") == [scheme + [0x20] + value]
                && Readable(scheme + [0x20] + value)
                && Text(Lower(scheme)) == "session"
                && value != []
  {
    var values := Values(fields, "authorization");
    if AuthorizationCredential(fields) == Accepted(Some(Credential("session", value))) {
      var (scheme, rest) := SplitOnce(SPACE, values[0]).value;
      SplitOnceIff(SPACE, values[0], scheme, rest);
      assert values == [scheme + [0x20] + value];
    }
    forall scheme: Octets | && values == [scheme + [0x20] + value] && Readable(scheme + [0x20] + value)
                            && Text(Lower(scheme)) == "session" && value != []
      ensures AuthorizationCredential(fields) == Accepted(Some(Credential("session", value)))
    {
      LowerKeepsSpace(scheme);
      SplitOnceIff(SPACE, values[0], scheme, value);
    }
  }

  /** A credential with scheme "session" comes out exactly when the cookie grants it or the
      Authorization field spells it out. */
  lemma SessionCredentialIff(verb: Octets, fields: seq<Field>, policy: Policy, value: Octets)
    ensures SelectCredential(verb, fields, Some(policy)) == Accepted(Some(Credential("session", value))) <==>
              || (exists csrf :: CookieGrants(verb, fields, policy, csrf, value))
              || (exists csrf, scheme :: AuthorizationGrants(fields, policy, csrf, scheme, value))
  {
    var cookies := Selected(policy, Values(fields, "cookie"));
    forall session, csrf ensures cookies == Ok(Selection(session, csrf)) <==> CookiesAre(policy, fields, session, csrf) {
      SelectedIff(policy, fields, session, csrf);
    }
    if cookies.Ok? {
      var Selection(session, csrf) := cookies.value;
      if session.Some? {
        CookieGrantsIff(verb, fields, policy, session.value, csrf, value);
      } else {
        AuthorizationGrantsIff(verb, fields, policy, csrf, value);
      }
    }
  }

  lemma CookieGrantsIff(verb: Octets, fields: seq<Field>, policy: Policy, session: Octets, csrf: Option<Octets>, value: Octets)
    requires CookiesAre(policy, fields, Some(session), csrf)
    requires Selected(policy, Values(fields, "cookie")) == Ok(Selection(Some(session), csrf))
    ensures SelectCredential(verb, fields, Some(policy)) == Accepted(Some(Credential("session", value))) <==>
              CookieGrants(verb, fields, policy, csrf, value)
  {
    SelectedIff(policy, fields, Some(value), csrf);
    CsrfCheckPasses(SafeMethod(verb), fields, policy, Some(session), csrf);
    NoAuthorizationIff(fields);
  }

  lemma AuthorizationGrantsIff(verb: Octets, fields: seq<Field>, policy: Policy, csrf: Option<Octets>, value: Octets)
    requires CookiesAre(policy, fields, None, csrf)
    requires Selected(policy, Values(fields, "cookie")) == Ok(Selection(None, csrf))
    ensures SelectCredential(verb, fields, Some(policy)) == Accepted(Some(Credential("session", value))) <==>
              exists scheme :: AuthorizationGrants(fields, policy, csrf, scheme, value)
  {
    SessionSchemeIff(fields, value);
    assert SelectCredential(verb, fields, Some(policy)) == AuthorizationCredential(fields);
    if AuthorizationCredential(fields) == Accepted(Some(Credential("session", value))) {
      var scheme: Octets :| && Values(fields, "authorization") == [scheme + [0x20] + value]
                            && Readable(scheme + [0x20] + value) && Text(Lower(scheme)) == "session" && value != [];
      assert AuthorizationGrants(fields, policy, csrf, scheme, value);
    }
  }

  lemma NoAuthorizationIff(fields: seq<Field>)
    ensures AuthorizationCredential(fields) == Accepted(None) <==> Values(fields, "authorization") == []
    ensures !AuthorizationCredential(fields).CsrfForbidden?
  {}

  const SESSION_X: Octets := [0x53, 0x65, 0x73, 0x73, 0x69, 0x6f, 0x6e, 0x20, 0x78]

  /** So "a session credential needs the session cookie" is not a law of the code: the field
      "Authorization: Session x" yields one by itself. */
  lemma SessionSchemeNeedsNoCookie(policy: Policy, verb: Octets)
    ensures SelectCredential(verb, [Field("authorization", SESSION_X)], Some(policy)) == Accepted(Some(Credential("session", [0x78])))
  {
    var fields := [Field("authorization", SESSION_X)];
    SessionXParses();
    SessionXIsReadable();
    assert fields[1..] == [];
    assert Values(fields, "authorization") == [SESSION_X] && Values(fields, "cookie") == [];
    assert AddAll(policy, Selection(None, None), []) == Ok(Selection(None, None));
    assert Selected(policy, []) == Ok(Selection(None, None));
  }

  lemma SessionXIsReadable()
    ensures Readable(SESSION_X)
  {}

  lemma SessionXParses()
    ensures ParseAuthorization(SESSION_X) == Accepted(Credential("session", [0x78]))
  {
    var scheme: Octets := [0x53, 0x65, 0x73, 0x73, 0x69, 0x6f, 0x6e];
    assert scheme + [0x20] + [0x78] == SESSION_X;
    SessionSpelled(scheme);
    LowerKeepsSpace(scheme);
    SplitOnceIff(SPACE, SESSION_X, scheme, [0x78]);
  }

  lemma SessionSpelled(scheme: Octets)
    requires scheme == [0x53, 0x65, 0x73, 0x73, 0x69, 0x6f, 0x6e]
    ensures Text(Lower(scheme)) == "session"
  {
    var lower := Lower(scheme);
    assert lower == [0x73, 0x65, 0x73, 0x73, 0x69, 0x6f, 0x6e];
    var text := Text(lower);
    assert |text| == 7;
    assert text[0] == 's' && text[1] == 'e' && text[2] == 's' && text[3] == 's';
    assert text[4] == 'i' && text[5] == 'o' && text[6] == 'n';
  }

  /** The CSRF header is missing, or the cookie is, or they differ. A header sent twice or not
      readable is a bad request instead. */
  ghost predicate CsrfFails(fields: seq<Field>, policy: Policy, csrf: Option<Octets>) {
    var headers := Values(fields, policy.csrfHeader);
    csrf.None? || headers == [] || (|headers| == 1 && Readable(headers[0]) && headers[0] != csrf.value)
  }

  /** A request is turned away for CSRF exactly when it is unsafe, leans on the session cookie, and
      cookie and header do not agree. */
  lemma CsrfForbiddenIff(verb: Octets, fields: seq<Field>, policy: Policy)
    ensures SelectCredential(verb, fields, Some(policy)) == CsrfForbidden <==>
              && !SafeMethod(verb)
              && Values(fields, "authorization") == []
              && exists session, csrf :: CookiesAre(policy, fields, Some(session), csrf) && CsrfFails(fields, policy, csrf)
  {
    var cookies := Selected(policy, Values(fields, "cookie"));
    forall session, csrf ensures cookies == Ok(Selection(session, csrf)) <==> CookiesAre(policy, fields, session, csrf) {
      SelectedIff(policy, fields, session, csrf);
    }
    NoAuthorizationIff(fields);
    if cookies.Ok? {
      var Selection(session, csrf) := cookies.value;
      CsrfCheckFails(fields, policy, session, csrf);
      assert SelectCredential(verb, fields, Some(policy)) == CsrfForbidden <==>
          !SafeMethod(verb) && Values(fields, "authorization") == [] && session.Some? && CsrfFails(fields, policy, csrf);
    }
  }

  lemma CsrfCheckFails(fields: seq<Field>, policy: Policy, session: Option<Octets>, csrf: Option<Octets>)
    requires CookiesAre(policy, fields, session, csrf)
    ensures CheckCsrf(false, csrf, SingleHeader(fields, policy.csrfHeader)) == CsrfForbidden <==> CsrfFails(fields, policy, csrf)
  {
    if csrf.Some? {
      CsrfCookieIsPlain(policy, fields, session, csrf.value);
      var header := SingleHeader(fields, policy.csrfHeader);
      if header.Accepted? && header.value.Some? {
        TokensMatchIffEqual(csrf.value, header.value.value);
      }
    }
  }

  // ---------------------------------------------------------------- methods and schemes, octet by octet

  lemma {:induction false} TextIsInjective(a: Octets, b: Octets)
    ensures Text(a) == Text(b) <==> a == b
  {
    if Text(a) == Text(b) {
      assert |a| == |Text(a)| == |Text(b)| == |b|;
      forall i | 0 <= i < |a| ensures a[i] == b[i] {
        assert Text(a)[i] == a[i] as char && Text(b)[i] == b[i] as char;
      }
    }
  }

  const GET: Octets := [0x47, 0x45, 0x54]
  const HEAD: Octets := [0x48, 0x45, 0x41, 0x44]
  const OPTIONS: Octets := [0x4f, 0x50, 0x54, 0x49, 0x4f, 0x4e, 0x53]
  const TRACE: Octets := [0x54, 0x52, 0x41, 0x43, 0x45]
  const QUERY: Octets := [0x51, 0x55, 0x45, 0x52, 0x59]

  lemma GetSpelled() ensures Text(GET) == "GET" {}
  lemma HeadSpelled() ensures Text(HEAD) == "HEAD" {}
  lemma OptionsSpelled() ensures Text(OPTIONS) == "OPTIONS" {}
  lemma TraceSpelled() ensures Text(TRACE) == "TRACE" {}
  lemma QuerySpelled() ensures Text(QUERY) == "QUERY" {}

  /** The safe methods are GET, HEAD, OPTIONS and TRACE as spelled here, and QUERY in any case. */
  lemma SafeMethodIff(verb: Octets)
    ensures SafeMethod(verb) <==>
              || verb == GET || verb == HEAD || verb == OPTIONS || verb == TRACE
              || (|verb| == 5 && forall i :: 0 <= i < 5 ==> verb[i] == QUERY[i] || verb[i] == QUERY[i] + 0x20)
  {
    GetSpelled();
    HeadSpelled();
    OptionsSpelled();
    TraceSpelled();
    QuerySpelled();
    TextIsInjective(verb, GET);
    TextIsInjective(verb, HEAD);
    TextIsInjective(verb, OPTIONS);
    TextIsInjective(verb, TRACE);
    TextIsInjective(Upper(verb), QUERY);
    QueryInAnyCase(verb);
  }

  lemma {:induction false} QueryInAnyCase(verb: Octets)
    ensures Upper(verb) == QUERY <==> |verb| == 5 && forall i :: 0 <= i < 5 ==> verb[i] == QUERY[i] || verb[i] == QUERY[i] + 0x20
  {
    UpperIs(verb);
    forall i | 0 <= i < 5 && i < |verb| ensures Upper(verb)[i] == QUERY[i] <==> verb[i] == QUERY[i] || verb[i] == QUERY[i] + 0x20 {
      assert 0x41 <= QUERY[i] <= 0x5a;
      UpperOctet(verb[i], QUERY[i]);
    }
    if |verb| == 5 && forall i :: 0 <= i < 5 ==> verb[i] == QUERY[i] || verb[i] == QUERY[i] + 0x20 {
      assert forall i :: 0 <= i < 5 ==> Upper(verb)[i] == QUERY[i];
      assert Upper(verb) == QUERY;
    }
  }

  lemma UpperOctet(b: bv8, c: bv8)
    requires 0x41 <= c <= 0x5a
    ensures (if 0x61 <= b <= 0x7a then b - 0x20 else b) == c <==> b == c || b == c + 0x20
  {
  }

  /** Nothing that folded duplicate fields would put into a token. */
  ghost predicate OneToken(value: Octets) {
    forall i :: 0 <= i < |value| ==> value[i] != 0x2c && value[i] != 0x20 && value[i] != 0x09 && value[i] != 0x0a && value[i] != 0x0c && value[i] != 0x0d
  }

  /** One readable field: a scheme, a space, a value. */
  ghost predicate Authorizes(fields: seq<Field>, raw: Octets, value: Octets) {
    && Values(fields, "authorization") == [raw + [0x20] + value]
    && (forall i :: 0 <= i < |raw + [0x20] + value| ==> var b := (raw + [0x20] + value)[i]; b == 0x09 || (b >= 0x20 && b < 0x7f))
    && raw != [] && 0x20 !in raw && value != []
  }

  /** What an Authorization field yields: its scheme in lower case and its value, where the value of a
      bearer or basic credential must be a single token. */
  lemma AuthorizationIff(fields: seq<Field>, scheme: string, value: Octets)
    ensures AuthorizationCredential(fields) == Accepted(Some(Credential(scheme, value))) <==>
              exists raw :: Authorizes(fields, raw, value) && Reads(raw, scheme) && (scheme == "bearer" || scheme == "basic" ==> OneToken(value))
  {
    var values := Values(fields, "authorization");
    forall raw ensures Text(Lower(raw)) == scheme <==> Reads(raw, scheme) { ReadsIff(raw, scheme); }
    assert OneToken(value) <==> !Ambiguous(value);
    if AuthorizationCredential(fields) == Accepted(Some(Credential(scheme, value))) {
      var (raw, rest) := SplitOnce(SPACE, values[0]).value;
      SplitOnceIff(0x20, values[0], raw, rest);
      ReadableIff(values[0]);
      assert values == [raw + [0x20] + value];
      assert Authorizes(fields, raw, value);
    }
    forall raw | Authorizes(fields, raw, value) && Reads(raw, scheme) && (scheme == "bearer" || scheme == "basic" ==> OneToken(value))
      ensures AuthorizationCredential(fields) == Accepted(Some(Credential(scheme, value)))
    {
      ReadableIff(values[0]);
      SplitOnceIff(0x20, values[0], raw, value);
    }
  }

  /** Without a session cookie policy cookies are not looked at: no Authorization field, no credential;
      one that yields a credential, that credential; anything else is a bad request. */
  lemma WithoutPolicyIff(verb: Octets, fields: seq<Field>, scheme: string, value: Octets)
    ensures SelectCredential(verb, fields, None) == Accepted(None) <==> Values(fields, "authorization") == []
    ensures SelectCredential(verb, fields, None) == Accepted(Some(Credential(scheme, value))) <==>
              exists raw :: Authorizes(fields, raw, value) && Reads(raw, scheme) && (scheme == "bearer" || scheme == "basic" ==> OneToken(value))
    ensures !SelectCredential(verb, fields, None).CsrfForbidden?
  {
    NoAuthorizationIff(fields);
    AuthorizationIff(fields, scheme, value);
  }

  // ---------------------------------------------------------------- independence of the cookie layout

  /** The same fields apart from the Cookie fields. */
  ghost predicate SameElsewhere(fields: seq<Field>, others: seq<Field>) {
    forall name :: name != "cookie" ==> Values(fields, name) == Values(others, name)
  }

  lemma {:induction false} SameFieldsSameOutcome(verb: Octets, fields: seq<Field>, others: seq<Field>, policy: Policy)
    requires Values(fields, "authorization") == Values(others, "authorization")
    requires Values(fields, policy.csrfHeader) == Values(others, policy.csrfHeader)
    requires Selected(policy, Values(fields, "cookie")) == Selected(policy, Values(others, "cookie"))
    ensures SelectCredential(verb, fields, Some(policy)) == SelectCredential(verb, others, Some(policy))
  {
    assert AuthorizationCredential(fields) == AuthorizationCredential(others);
  }

  lemma {:induction false} SameCookiesSameOutcome(verb: Octets, fields: seq<Field>, others: seq<Field>, policy: Policy)
    requires policy.csrfHeader != "cookie" && SameElsewhere(fields, others)
    requires Selected(policy, Values(fields, "cookie")) == Selected(policy, Values(others, "cookie"))
    ensures SelectCredential(verb, fields, Some(policy)) == SelectCredential(verb, others, Some(policy))
  {
    assert Values(fields, "authorization") == Values(others, "authorization");
    assert Values(fields, policy.csrfHeader) == Values(others, policy.csrfHeader);
    SameFieldsSameOutcome(verb, fields, others, policy);
  }

  /** Splitting a Cookie field at a crumb, anywhere among the fields, changes no outcome. */
  lemma {:induction false} CredentialIgnoresCrumbSplits(verb: Octets, fields: seq<Field>, others: seq<Field>, policy: Policy,
                                     before: seq<Octets>, a: Octets, b: Octets, after: seq<Octets>)
    requires policy.csrfHeader != "cookie" && SameElsewhere(fields, others)
    requires Values(fields, "cookie") == before + [a, b] + after
    requires Values(others, "cookie") == before + [a + [0x3b, 0x20] + b] + after
    ensures SelectCredential(verb, fields, Some(policy)) == SelectCredential(verb, others, Some(policy))
  {
    SelectionIgnoresCrumbSplits(policy, before, a, b, after);
    SameCookiesSameOutcome(verb, fields, others, policy);
  }

  /** Neither does permuting the cookie pairs, across fields as well. */
  lemma {:induction false} CredentialIgnoresPairOrder(verb: Octets, fields: seq<Field>, others: seq<Field>, policy: Policy)
    requires policy.csrfHeader != "cookie" && SameElsewhere(fields, others)
    requires AllReadable(Values(fields, "cookie")) && AllReadable(Values(others, "cookie"))
    requires multiset(AllCrumbs(Values(fields, "cookie"))) == multiset(AllCrumbs(Values(others, "cookie")))
    ensures SelectCredential(verb, fields, Some(policy)) == SelectCredential(verb, others, Some(policy))
  {
    SelectionIgnoresPairOrder(policy, Values(fields, "cookie"), Values(others, "cookie"));
    SameCookiesSameOutcome(verb, fields, others, policy);
  }
}
