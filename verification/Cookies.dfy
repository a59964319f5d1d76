/** The session and CSRF cookies of a request. */
module Cookies {
  import opened FieldText
  import opened Texts
  import opened JsonValues
  import opened Sorting

  /** The cookie pairs of one Cookie field. */
  function Crumbs(field: Octets): seq<Octets> { Trimmed(Split(SEMICOLON, field)) }

  function AllCrumbs(fields: seq<Octets>): seq<Octets> {
    if fields == [] then [] else Crumbs(fields[0]) + AllCrumbs(fields[1..])
  }

  // ---------------------------------------------------------------- one cookie pair

  datatype Policy = Policy(name: Octets, csrfCookie: Octets, csrfHeader: string)

  predicate CookieOctet(b: bv8) {
    b == 0x21 || 0x23 <= b <= 0x2b || 0x2d <= b <= 0x3a || 0x3c <= b <= 0x5b || 0x5d <= b <= 0x7e
  }

  predicate Plain(t: Octets) { forall i | 0 <= i < |t| :: CookieOctet(t[i]) }

  /** `normalized_cookie_value`: unquotes, and refuses half-quoted values and foreign octets. */
  function NormalizedValue(value: Octets): Option<Octets> {
    var quotedAtStart := value != [] && value[0] == QUOTE;
    var quotedAtEnd := value != [] && value[|value| - 1] == QUOTE;
    if (quotedAtStart || quotedAtEnd) && !(quotedAtStart && quotedAtEnd && |value| >= 2) then None
    else
      var inner := if quotedAtStart then value[1..|value| - 1] else value;
      if Plain(inner) then Some(inner) else None
  }

  /** Visible ASCII without quotes, commas, semicolons and backslashes. */
  ghost predicate CookieText(t: Octets) {
    forall i :: 0 <= i < |t| ==> 0x20 < t[i] < 0x7f && t[i] != 0x22 && t[i] != 0x2c && t[i] != 0x3b && t[i] != 0x5c
  }

  lemma PlainIff(t: Octets)
    ensures Plain(t) <==> CookieText(t)
  {
    forall i | 0 <= i < |t|
      ensures CookieOctet(t[i]) <==> (0x20 < t[i] < 0x7f && t[i] != 0x22 && t[i] != 0x2c && t[i] != 0x3b && t[i] != 0x5c)
    {
    }
  }

  /** A value is accepted exactly as cookie text, or as cookie text between two quotes. */
  lemma NormalizedValueIff(value: Octets, inner: Octets)
    ensures NormalizedValue(value) == Some(inner) <==> CookieText(inner) && (value == inner || value == [0x22] + inner + [0x22])
  {
    PlainIff(inner);
    if CookieText(inner) && value == inner && value != [] {
      assert value[0] != 0x22 && value[|value| - 1] != 0x22;
    }
    var quoted := [0x22] + inner + [0x22];
    assert quoted[1..|quoted| - 1] == inner;
    if |value| >= 2 && value[0] == 0x22 && value[|value| - 1] == 0x22 {
      assert value == [0x22] + value[1..|value| - 1] + [0x22];
    }
  }

  datatype Meaning = Malformed | ForSession(value: Octets) | ForCsrf(value: Octets) | Irrelevant

  function CookieValue(raw: Octets): Option<Octets> {
    match NormalizedValue(Trim(raw))
    case None => None
    case Some(v) => if v == [] then None else Some(v)
  }

  function Classify(policy: Policy, pair: Octets): Meaning {
    match SplitOnce(EQUALS, pair)
    case None => if pair == policy.name || pair == policy.csrfCookie then Malformed else Irrelevant
    case Some((name, raw)) =>
      if Trim(name) == policy.name then
        (match CookieValue(raw) case None => Malformed case Some(v) => ForSession(v))
      else if Trim(name) == policy.csrfCookie then
        (match CookieValue(raw) case None => Malformed case Some(v) => ForCsrf(v))
      else Irrelevant
  }

  /** The raw value stands for `value`: surrounding white space and one pair of quotes do not count. */
  ghost predicate Spells(raw: Octets, value: Octets) {
    value != [] && CookieText(value) && (Trim(raw) == value || Trim(raw) == [0x22] + value + [0x22])
  }

  lemma CookieValueIff(raw: Octets, value: Octets)
    ensures CookieValue(raw) == Some(value) <==> Spells(raw, value)
  {
    NormalizedValueIff(Trim(raw), value);
  }

  ghost predicate Unspellable(raw: Octets) { forall value :: !Spells(raw, value) }

  lemma UnspellableIff(raw: Octets)
    ensures CookieValue(raw).None? <==> Unspellable(raw)
  {
    forall value ensures CookieValue(raw) == Some(value) <==> Spells(raw, value) { CookieValueIff(raw, value); }
    if CookieValue(raw).Some? {
      assert Spells(raw, CookieValue(raw).value);
    }
  }

  /** Name, equals sign, raw value; white space around the name does not count. */
  ghost predicate PairOf(pair: Octets, cookie: Octets, raw: Octets, name: Octets) {
    pair == name + [0x3d] + raw && 0x3d !in name && Trim(name) == cookie
  }

  /** The pair names one of the two cookies. */
  ghost predicate Concerns(policy: Policy, pair: Octets, raw: Octets, name: Octets) {
    PairOf(pair, policy.name, raw, name) || PairOf(pair, policy.csrfCookie, raw, name)
  }

  /** A pair counts for the session cookie exactly when its name is that of the cookie and its value is
      acceptable; likewise for the CSRF cookie. It is malformed exactly when it names one of the two and
      has no acceptable value, or is the bare name. */
  lemma ClassifyIff(policy: Policy, pair: Octets, value: Octets)
    requires policy.name != policy.csrfCookie
    ensures Classify(policy, pair) == ForSession(value) <==>
              exists name, raw :: PairOf(pair, policy.name, raw, name) && Spells(raw, value)
    ensures Classify(policy, pair) == ForCsrf(value) <==>
              exists name, raw :: PairOf(pair, policy.csrfCookie, raw, name) && Spells(raw, value)
    ensures Classify(policy, pair) == Malformed <==>
              || (0x3d !in pair && (pair == policy.name || pair == policy.csrfCookie))
              || exists name, raw :: Concerns(policy, pair, raw, name) && Unspellable(raw)
  {
    forall name, raw ensures SplitOnce(EQUALS, pair) == Some((name, raw)) <==> pair == name + [0x3d] + raw && 0x3d !in name {
      SplitOnceIff(0x3d, pair, name, raw);
    }
    SplitOnceNoneIff(0x3d, pair);
    match SplitOnce(EQUALS, pair) {
      case None =>
      case Some((name, raw)) =>
        forall v ensures CookieValue(raw) == Some(v) <==> Spells(raw, v) { CookieValueIff(raw, v); }
        assert PairOf(pair, Trim(name), raw, name);
        UnspellableIff(raw);
        assert Concerns(policy, pair, raw, name) <==> Trim(name) == policy.name || Trim(name) == policy.csrfCookie;
    }
  }

  /** The pairs of a field are what stands between semicolons, trimmed, if anything is left. */
  lemma CrumbsIff(field: Octets, pair: Octets)
    ensures pair in Crumbs(field) <==> pair != [] && exists a, piece, b :: Between(0x3b, field, a, piece, b) && Trim(piece) == pair
  {
    TokensIff(0x3b, field, pair);
  }

  // ---------------------------------------------------------------- all cookie pairs

  datatype Selection = Selection(session: Option<Octets>, csrf: Option<Octets>)

  /** Adds one pair; a second value for the same cookie is refused. */
  function Add(policy: Policy, selected: Selection, pair: Octets): Result<Selection> {
    match Classify(policy, pair)
    case Malformed => Err
    case Irrelevant => Ok(selected)
    case ForSession(v) => if selected.session.Some? then Err else Ok(selected.(session := Some(v)))
    case ForCsrf(v) => if selected.csrf.Some? then Err else Ok(selected.(csrf := Some(v)))
  }

  /** Pair by pair, as the source goes. */
  function AddAll(policy: Policy, selected: Selection, pairs: seq<Octets>): Result<Selection>
    decreases |pairs|
  {
    if pairs == [] then Ok(selected)
    else match Add(policy, selected, pairs[0])
      case Err => Err
      case Ok(next) => AddAll(policy, next, pairs[1..])
  }

  function Selected(policy: Policy, fields: seq<Octets>): Result<Selection> {
    if exists i | 0 <= i < |fields| :: !Readable(fields[i]) then Err
    else AddAll(policy, Selection(None, None), AllCrumbs(fields))
  }

  // ---------------------------------------------------------------- joining and splitting Cookie fields

  lemma LeadingSpaceIsTrimmed(t: Octets)
    ensures Crumbs([0x20] + t) == Crumbs(t)
  {
    var pieces := Split(SEMICOLON, t);
    assert ([0x20] + t)[1..] == t;
    var spaced := Split(SEMICOLON, [0x20] + t);
    assert spaced == [[0x20] + pieces[0]] + pieces[1..];
    assert ([0x20] + pieces[0])[1..] == pieces[0];
    assert TrimStart([0x20] + pieces[0]) == TrimStart(pieces[0]);
    assert spaced[1..] == pieces[1..];
  }

  lemma JoinedCrumbs(a: Octets, b: Octets)
    ensures Crumbs(a + [0x3b, 0x20] + b) == Crumbs(a) + Crumbs(b)
  {
    assert a + [0x3b, 0x20] + b == a + [0x3b] + ([0x20] + b);
    SplitJoins(SEMICOLON, a, [0x20] + b);
    TrimmedJoin(Split(SEMICOLON, a), Split(SEMICOLON, [0x20] + b));
    LeadingSpaceIsTrimmed(b);
  }

  lemma {:induction false} AllCrumbsJoin(a: seq<Octets>, b: seq<Octets>)
    ensures AllCrumbs(a + b) == AllCrumbs(a) + AllCrumbs(b)
  {
    if a == [] {
      assert a + b == b;
    } else {
      assert (a + b)[1..] == a[1..] + b;
      AllCrumbsJoin(a[1..], b);
    }
  }

  lemma JoinedIsReadable(a: Octets, b: Octets)
    ensures Readable(a + [0x3b, 0x20] + b) <==> Readable(a) && Readable(b)
  {
    var whole := a + [0x3b, 0x20] + b;
    if Readable(whole) {
      forall i | 0 <= i < |a| ensures a[i] == TAB || 0x20 <= a[i] <= 0x7e { assert whole[i] == a[i]; }
      forall i | 0 <= i < |b| ensures b[i] == TAB || 0x20 <= b[i] <= 0x7e { assert whole[|a| + 2 + i] == b[i]; }
    }
  }

  /** Replacing part of the fields by a part with the same pairs and readability changes nothing. */
  lemma SelectionInContext(policy: Policy, before: seq<Octets>, x: seq<Octets>, y: seq<Octets>, after: seq<Octets>)
    requires AllCrumbs(x) == AllCrumbs(y) && (AllReadable(x) <==> AllReadable(y))
    ensures Selected(policy, before + x + after) == Selected(policy, before + y + after)
  {
    AllCrumbsJoin(before + x, after);
    AllCrumbsJoin(before + y, after);
    AllCrumbsJoin(before, x);
    AllCrumbsJoin(before, y);
    AllReadableJoin(before + x, after);
    AllReadableJoin(before + y, after);
    AllReadableJoin(before, x);
    AllReadableJoin(before, y);
  }

  /** Splitting a Cookie field at a crumb, or joining two with "; " as section 8.2.3 of RFC 9113
      tells HTTP/2 peers to, selects the same cookies. */
  lemma SelectionIgnoresCrumbSplits(policy: Policy, before: seq<Octets>, a: Octets, b: Octets, after: seq<Octets>)
    ensures Selected(policy, before + [a, b] + after) == Selected(policy, before + [a + [0x3b, 0x20] + b] + after)
  {
    var joined := a + [0x3b, 0x20] + b;
    JoinedCrumbs(a, b);
    JoinedIsReadable(a, b);
    CrumbsOfTwo(a, b);
    assert [joined][1..] == [];
    assert AllCrumbs([joined]) == Crumbs(joined);
    assert AllReadable([a, b]) <==> Readable([a, b][0]) && Readable([a, b][1]);
    assert AllReadable([joined]) <==> Readable([joined][0]);
    SelectionInContext(policy, before, [a, b], [joined], after);
  }

  lemma CrumbsOfTwo(a: Octets, b: Octets)
    ensures AllCrumbs([a, b]) == Crumbs(a) + Crumbs(b)
  {
    assert [a, b][1..] == [b] && [b][1..] == [];
    assert AllCrumbs([b]) == Crumbs(b);
  }

  // ---------------------------------------------------------------- order of the pairs

  function Is(policy: Policy, meaning: Meaning -> bool): Octets -> bool { pair => meaning(Classify(policy, pair)) }

  function Sessions(policy: Policy, pairs: seq<Octets>): seq<Octets> { Filter(Is(policy, (m: Meaning) => m.ForSession?), pairs) }
  function Csrfs(policy: Policy, pairs: seq<Octets>): seq<Octets> { Filter(Is(policy, (m: Meaning) => m.ForCsrf?), pairs) }
  function Bad(policy: Policy, pairs: seq<Octets>): seq<Octets> { Filter(Is(policy, (m: Meaning) => m.Malformed?), pairs) }

  function ValueIn(policy: Policy, pair: Octets): Octets {
    match Classify(policy, pair)
    case ForSession(v) => v
    case ForCsrf(v) => v
    case _ => []
  }

  /** What the pair-by-pair loop amounts to: no malformed pair, at most one value for each of the
      two cookies, and those values. */
  lemma {:induction false} AddAllCollects(policy: Policy, selected: Selection, pairs: seq<Octets>)
    ensures var r := AddAll(policy, selected, pairs);
            var s, c := Sessions(policy, pairs), Csrfs(policy, pairs);
            && (r.Ok? <==> |Bad(policy, pairs)| == 0
                           && |s| <= (if selected.session.Some? then 0 else 1)
                           && |c| <= (if selected.csrf.Some? then 0 else 1))
            && (r.Ok? ==> r.value.session == (if |s| == 1 then Some(ValueIn(policy, s[0])) else selected.session)
                          && r.value.csrf == (if |c| == 1 then Some(ValueIn(policy, c[0])) else selected.csrf))
    decreases |pairs|
  {
    if pairs != [] {
      var next := Add(policy, selected, pairs[0]);
      if next.Ok? {
        AddAllCollects(policy, next.value, pairs[1..]);
      }
    }
  }

  /** Permuting the cookie pairs, across fields as well, selects the same cookies. */
  lemma SelectionIgnoresPairOrder(policy: Policy, fields: seq<Octets>, others: seq<Octets>)
    requires multiset(AllCrumbs(fields)) == multiset(AllCrumbs(others))
    requires AllReadable(fields) && AllReadable(others)
    ensures Selected(policy, fields) == Selected(policy, others)
  {
    var a, b := AllCrumbs(fields), AllCrumbs(others);
    AddAllCollects(policy, Selection(None, None), a);
    AddAllCollects(policy, Selection(None, None), b);
    FilterKeepsPermutation(Is(policy, (m: Meaning) => m.Malformed?), a, b);
    FilterKeepsPermutation(Is(policy, (m: Meaning) => m.ForSession?), a, b);
    FilterKeepsPermutation(Is(policy, (m: Meaning) => m.ForCsrf?), a, b);
    ShortPermutationsAgree(Bad(policy, a), Bad(policy, b));
    ShortPermutationsAgree(Sessions(policy, a), Sessions(policy, b));
    ShortPermutationsAgree(Csrfs(policy, a), Csrfs(policy, b));
  }

  // ---------------------------------------------------------------- the loops

  /** `selected_cookies`. */
  method SelectCookies(policy: Policy, fields: seq<Octets>) returns (r: Result<Selection>)
    ensures r == Selected(policy, fields)
  {
    var selected := Selection(None, None);
    for i := 0 to |fields|
      invariant forall j :: 0 <= j < i ==> Readable(fields[j])
      invariant AddAll(policy, Selection(None, None), AllCrumbs(fields)) == AddAll(policy, selected, AllCrumbs(fields[i..]))
    {
      if !Readable(fields[i]) {
        return Err;
      }
      assert fields[i..][1..] == fields[i + 1..];
      var next := SelectFromField(policy, fields[i], selected, AllCrumbs(fields[i + 1..]));
      if next.Err? {
        return Err;
      }
      selected := next.value;
    }
    r := Ok(selected);
  }

  /** The pairs of one field; `later` are those that follow. */
  method SelectFromField(policy: Policy, field: Octets, selected: Selection, ghost later: seq<Octets>) returns (r: Result<Selection>)
    ensures AddAll(policy, selected, Crumbs(field) + later) == if r.Ok? then AddAll(policy, r.value, later) else Err
  {
    var pieces := Split(SEMICOLON, field);
    var current := selected;
    for i := 0 to |pieces|
      invariant AddAll(policy, selected, Crumbs(field) + later) == AddAll(policy, current, Trimmed(pieces[i..]) + later)
    {
      var pair := Trim(pieces[i]);
      assert pieces[i..][1..] == pieces[i + 1..];
      if pair != [] {
        assert Trimmed(pieces[i..]) + later == [pair] + (Trimmed(pieces[i + 1..]) + later);
        var next := Add(policy, current, pair);
        if next.Err? {
          return Err;
        }
        current := next.value;
      } else {
        assert Trimmed(pieces[i..]) == Trimmed(pieces[i + 1..]);
      }
    }
    assert Trimmed(pieces[|pieces|..]) + later == later;
    r := Ok(current);
  }
}
