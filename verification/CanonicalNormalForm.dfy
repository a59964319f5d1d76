/** Canonical forms as normal forms: fixed points, and blind to the order of `required` and `enum`. */
module CanonicalNormalForm {
  import opened JsonValues
  import opened Sorting
  import opened Canonical

  lemma TextOrderIsTotal(render: Printer)
    ensures TotalPreorder(ByText(render))
    ensures (forall a, b :: render(a) == render(b) ==> a == b) ==> Antisymmetric(ByText(render))
  {
    var le := ByText(render);
    forall a, b ensures le(a, b) || le(b, a) { StringLeTotal(render(a), render(b)); }
    forall a, b, c | le(a, b) && le(b, c) ensures le(a, c) { StringLeTransitive(render(a), render(b), render(c)); }
    forall a, b | le(a, b) && le(b, a) ensures render(a) == render(b) { StringLeTotal(render(a), render(b)); }
  }

  // ---------------------------------------------------------------- idempotence

  /** `value` canonicalises to itself under every root and stack. */
  ghost predicate Normal(config: Config, value: Json) {
    forall root, refs :: Canon(config, value, root, refs) == Ok(value)
  }

  lemma NormalArray(config: Config, items: seq<Json>)
    requires forall i :: 0 <= i < |items| ==> Normal(config, items[i])
    ensures Normal(config, Arr(items))
  {
    forall root, refs ensures Canon(config, Arr(items), root, refs) == Ok(Arr(items)) {
      CanonUnfolds(config, Arr(items), root, refs);
      var results := Items(config, Arr(items), root, refs);
      forall i | 0 <= i < |items| ensures results[i] == Ok(items[i]) { assert Normal(config, items[i]); }
      assert JoinItems(results).value.items == items;
    }
  }

  lemma NormalArrayItems(config: Config, items: seq<Json>)
    requires Normal(config, Arr(items))
    ensures forall i :: 0 <= i < |items| ==> Normal(config, items[i])
  {
    forall i, root, refs | 0 <= i < |items| ensures Canon(config, items[i], root, refs) == Ok(items[i]) {
      CanonUnfolds(config, Arr(items), root, refs);
      assert Canon(config, Arr(items), root, refs) == Ok(Arr(items));
      assert Items(config, Arr(items), root, refs)[i].Ok?;
      assert JoinItems(Items(config, Arr(items), root, refs)).value.items[i] == items[i];
    }
  }

  lemma FinishIsNormal(config: Config, key: string, value: Json)
    requires Normal(config, value)
    ensures Normal(config, Finish(config, key, value))
    ensures Finish(config, key, Finish(config, key, value)) == Finish(config, key, value)
  {
    if value.Arr? {
      var sorted := Sort(ByText(config.render), value.items);
      SortKeepsElements(ByText(config.render), value.items);
      NormalArrayItems(config, value.items);
      forall i | 0 <= i < |sorted| ensures Normal(config, sorted[i]) {
        assert sorted[i] in multiset(value.items);
        assert sorted[i] in value.items;
      }
      NormalArray(config, sorted);
      TextOrderIsTotal(config.render);
      SortSorts(ByText(config.render), value.items);
      SortFixesSorted(ByText(config.render), sorted);
    }
  }

  lemma NormalMembers(config: Config, fields: map<string, Json>, root: Json, refs: set<RefKey>)
    requires Reference(Obj(fields)).None?
    requires forall k :: k in fields ==> Kept(k) && Normal(config, fields[k])
    ensures Members(config, Obj(fields), root, refs) == map k | k in fields :: Ok(fields[k])
  {
    forall k | k in fields ensures Canon(config, fields[k], root, refs) == Ok(fields[k]) { assert Normal(config, fields[k]); }
    assert forall k :: k in fields ==> Visited(Obj(fields), k);
  }

  lemma NormalObject(config: Config, fields: map<string, Json>)
    requires Reference(Obj(fields)).None?
    requires forall k :: k in fields ==> Kept(k) && Normal(config, fields[k])
    requires forall k :: k in fields ==> Finish(config, k, fields[k]) == fields[k]
    ensures Normal(config, Obj(fields))
  {
    var members := map k | k in fields :: Ok(fields[k]);
    assert JoinMembers(config, members).value.fields == fields;
    forall root, refs ensures Canon(config, Obj(fields), root, refs) == Ok(Obj(fields)) {
      NormalMembers(config, fields, root, refs);
      CanonUnfolds(config, Obj(fields), root, refs);
    }
  }

  /** On reference-free schemas canonicalisation is idempotent: its result is a fixed point,
      whatever root and stack it is canonicalised under again. */
  lemma {:induction false} ReferenceFreeCanonIsNormal(config: Config, schema: Json, root: Json, refs: set<RefKey>)
    requires ReferenceFree(schema)
    ensures Canon(config, schema, root, refs).Ok? && Normal(config, Canon(config, schema, root, refs).value)
    decreases schema
  {
    ReferenceFreeCanonicalises(config, schema, root, refs);
    CanonUnfolds(config, schema, root, refs);
    match schema
    case Obj(fields) =>
      var r := Canon(config, schema, root, refs).value;
      CanonIsReferenceFree(config, schema, root, refs);
      forall k | k in r.fields
        ensures Kept(k) && Normal(config, r.fields[k]) && Finish(config, k, r.fields[k]) == r.fields[k]
      {
        assert k in Members(config, schema, root, refs);
        ReferenceFreeCanonIsNormal(config, fields[k], root, refs);
        FinishIsNormal(config, k, Canon(config, fields[k], root, refs).value);
      }
      NormalObject(config, r.fields);
    case Arr(items) =>
      var r := Canon(config, schema, root, refs).value;
      forall i | 0 <= i < |items| ensures Normal(config, r.items[i]) {
        assert Items(config, schema, root, refs)[i].Ok?;
        ReferenceFreeCanonIsNormal(config, items[i], root, refs);
      }
      NormalArray(config, r.items);
    case _ =>
      forall r, s ensures Canon(config, schema, r, s) == Ok(schema) { CanonUnfolds(config, schema, r, s); }
  }

  // ---------------------------------------------------------------- order of required and enum

  /** Different values print differently. */
  ghost predicate Injective(config: Config) { forall x, y :: config.render(x) == config.render(y) ==> x == y }

  /** `b` is `a` with the arrays under any number of `required` and `enum` members permuted, at
      any depth, except directly beside a reference, where the source does not sort. */
  ghost predicate Shuffled(a: Json, b: Json)
    decreases a
  {
    match a
    case Obj(fields) =>
      && b.Obj? && b.fields.Keys == fields.Keys && Reference(b) == Reference(a)
      && (forall k :: k in fields ==>
            || Shuffled(fields[k], b.fields[k])
            || (Reference(a).None? && (k == "required" || k == "enum") && Permuted(fields[k], b.fields[k])))
    case Arr(items) =>
      && b.Arr? && |b.items| == |items|
      && (forall i :: 0 <= i < |items| ==> Shuffled(items[i], b.items[i]))
    case _ => a == b
  }

  ghost predicate Permuted(a: Json, b: Json) { a.Arr? && b.Arr? && Reorders(a.items, b.items) }

  function ValueOr(config: Config, root: Json, refs: set<RefKey>): Json -> Json {
    s => var r := Canon(config, s, root, refs); if r.Ok? then r.value else s
  }

  lemma CanonOfArray(config: Config, items: seq<Json>, root: Json, refs: set<RefKey>)
    ensures Canon(config, Arr(items), root, refs).Ok? <==> forall x :: x in items ==> Canon(config, x, root, refs).Ok?
    ensures Canon(config, Arr(items), root, refs).Ok? ==>
              Canon(config, Arr(items), root, refs).value == Arr(Map(ValueOr(config, root, refs), items))
  {
    CanonUnfolds(config, Arr(items), root, refs);
    var results := Items(config, Arr(items), root, refs);
    if Canon(config, Arr(items), root, refs).Ok? {
      assert forall i :: 0 <= i < |items| ==> results[i].Ok?;
      assert JoinItems(results).value.items == Map(ValueOr(config, root, refs), items);
    } else {
      var i :| 0 <= i < |items| && results[i].Err?;
      assert items[i] in items;
    }
  }

  /** Permuted arrays fail together, and sort to the same canonical array. */
  lemma PermutedArraysFinishAlike(config: Config, key: string, a: Json, b: Json, root: Json, refs: set<RefKey>)
    requires Injective(config)
    requires Permuted(a, b) && (key == "required" || key == "enum")
    ensures FinishAlike(config, key, Canon(config, a, root, refs), Canon(config, b, root, refs))
  {
    CanonOfArray(config, a.items, root, refs);
    CanonOfArray(config, b.items, root, refs);
    assert forall x :: x in a.items <==> x in multiset(a.items);
    assert forall x :: x in b.items <==> x in multiset(b.items);
    var f := ValueOr(config, root, refs);
    MapKeepsPermutation(f, a.items, b.items);
    TextOrderIsTotal(config.render);
    SortIgnoresOrder(ByText(config.render), Map(f, a.items), Map(f, b.items));
  }

  ghost predicate FinishAlike(config: Config, key: string, a: Result<Json>, b: Result<Json>) {
    a.Ok? == b.Ok? && (a.Ok? ==> Finish(config, key, a.value) == Finish(config, key, b.value))
  }

  lemma JoinMembersAlike(config: Config, a: map<string, Result<Json>>, b: map<string, Result<Json>>)
    requires a.Keys == b.Keys && forall k :: k in a ==> FinishAlike(config, k, a[k], b[k])
    ensures JoinMembers(config, a) == JoinMembers(config, b)
  {
    assert AllOk(a) == AllOk(b) by {
      assert forall k :: k in a <==> k in b;
    }
    if AllOk(a) {
      assert JoinMembers(config, a).value.fields == JoinMembers(config, b).value.fields;
    }
  }

  lemma {:induction false} ShuffledSame(a: Json)
    ensures Shuffled(a, a)
    decreases a
  {
    if a.Obj? {
      forall k | k in a.fields ensures Shuffled(a.fields[k], a.fields[k]) { ShuffledSame(a.fields[k]); }
    } else if a.Arr? {
      forall i | 0 <= i < |a.items| ensures Shuffled(a.items[i], a.items[i]) { ShuffledSame(a.items[i]); }
    }
  }

  /** The definitions of two roots are shuffled too. A definition that is an array may be permuted
      (when it is called `required` or `enum`), but no reference to an array succeeds. */
  ghost predicate ShuffledDefinitions(root: Json, other: Json) {
    var here, there := Definitions(root), Definitions(other);
    && here.Keys == there.Keys
    && (forall n :: n in here && n in there ==> Shuffled(here[n], there[n]) || (here[n].Arr? && there[n].Arr?))
  }

  lemma ShuffledRoots(a: Json, b: Json)
    requires Shuffled(a, b)
    ensures ShuffledDefinitions(a, b)
  {
    if a.Obj? && "$defs" in a.fields {
      assert Shuffled(a.fields["$defs"], b.fields["$defs"]);
    }
  }

  /** Canonicalisation does not see the order of `required` and `enum` arrays, neither in the schema
      nor in the definitions it refers to. */
  lemma {:induction false} CanonIgnoresShuffling(config: Config, a: Json, b: Json, root: Json, other: Json, refs: set<RefKey>)
    requires Injective(config)
    requires Shuffled(a, b) && ShuffledDefinitions(root, other)
    ensures Canon(config, a, root, refs) == Canon(config, b, other, refs)
    decreases Fresh(config, root, refs), a, 2
  {
    match a
    case Obj(fields) =>
      MembersIgnoreShuffling(config, a, b, root, other, refs);
      CanonUnfolds(config, a, root, refs);
      CanonUnfolds(config, b, other, refs);
      if Reference(a).None? {
        JoinMembersAlike(config, Members(config, a, root, refs), Members(config, b, other, refs));
      } else {
        FollowedIgnoresShuffling(config, a, root, other, refs);
      }
    case Arr(items) =>
      forall i | 0 <= i < |items|
        ensures Canon(config, items[i], root, refs) == Canon(config, b.items[i], other, refs)
      {
        CanonIgnoresShuffling(config, items[i], b.items[i], root, other, refs);
      }
      assert Items(config, a, root, refs) == Items(config, b, other, refs);
      CanonCongruence(config, a, root, refs, b, other, refs);
    case _ =>
  }

  /** A reference gets the same from both. */
  ghost predicate SameObject(here: Result<Json>, there: Result<Json>) {
    (GivesObject(here) || GivesObject(there)) ==> here == there
  }

  lemma FollowedIs(config: Config, reference: string, root: Json, refs: set<RefKey>)
    ensures var t := Resolve(config, reference, root);
            Followed(config, reference, root, refs) ==
              if t.None? || t.value.key in refs then Err else Canon(config, t.value.schema, t.value.root, refs + {t.value.key})
  {
  }

  lemma LocalTargetsAreShuffled(config: Config, reference: string, root: Json, other: Json)
    requires ShuffledDefinitions(root, other)
    ensures var here, there := Resolve(config, reference, root), Resolve(config, reference, other);
            if !(LOCAL_PREFIX <= reference) then here == there
            else
              && here.Some? == there.Some?
              && (here.Some? ==>
                    && here.value.key == there.value.key && here.value.root == root && there.value.root == other
                    && (Shuffled(here.value.schema, there.value.schema) || (here.value.schema.Arr? && there.value.schema.Arr?)))
  {
  }

  lemma {:induction false} FollowedIgnoresShuffling(config: Config, schema: Json, root: Json, other: Json, refs: set<RefKey>)
    requires Injective(config)
    requires schema.Obj? && Reference(schema).Some? && ShuffledDefinitions(root, other)
    ensures SameObject(Followed(config, Reference(schema).value, root, refs), Followed(config, Reference(schema).value, other, refs))
    decreases Fresh(config, root, refs), schema, 0
  {
    var reference := Reference(schema).value;
    LocalTargetsAreShuffled(config, reference, root, other);
    FollowedIs(config, reference, root, refs);
    FollowedIs(config, reference, other, refs);
    var here, there := Resolve(config, reference, root), Resolve(config, reference, other);
    if LOCAL_PREFIX <= reference && here.Some? && here.value.key !in refs {
      ResolveDescends(config, reference, root, refs);
      TargetsIgnoreShuffling(config, here.value.schema, there.value.schema, root, other, refs + {here.value.key});
    }
  }

  lemma {:induction false} TargetsIgnoreShuffling(config: Config, a: Json, b: Json, root: Json, other: Json, refs: set<RefKey>)
    requires Injective(config)
    requires ShuffledDefinitions(root, other) && (Shuffled(a, b) || (a.Arr? && b.Arr?))
    ensures SameObject(Canon(config, a, root, refs), Canon(config, b, other, refs))
    decreases Fresh(config, root, refs), a, 3
  {
    if Shuffled(a, b) {
      CanonIgnoresShuffling(config, a, b, root, other, refs);
    } else {
      ArraysAreNotObjects(config, a, root, refs);
      ArraysAreNotObjects(config, b, other, refs);
    }
  }

  lemma ArraysAreNotObjects(config: Config, schema: Json, root: Json, refs: set<RefKey>)
    requires schema.Arr?
    ensures !GivesObject(Canon(config, schema, root, refs))
  {
    if Canon(config, schema, root, refs).Ok? {
      CanonKeepsKind(config, schema, root, refs);
    }
  }

  lemma {:induction false} MemberIgnoresShuffling(config: Config, a: Json, b: Json, k: string, root: Json, other: Json, refs: set<RefKey>)
    requires Injective(config)
    requires a.Obj? && Shuffled(a, b) && ShuffledDefinitions(root, other) && k in a.fields
    ensures FinishAlike(config, k, Canon(config, a.fields[k], root, refs), Canon(config, b.fields[k], other, refs))
    ensures Reference(a).Some? ==> Canon(config, a.fields[k], root, refs) == Canon(config, b.fields[k], other, refs)
    decreases Fresh(config, root, refs), a, 0
  {
    if Shuffled(a.fields[k], b.fields[k]) {
      CanonIgnoresShuffling(config, a.fields[k], b.fields[k], root, other, refs);
    } else {
      ShuffledSame(a.fields[k]);
      CanonIgnoresShuffling(config, a.fields[k], a.fields[k], root, other, refs);
      PermutedArraysFinishAlike(config, k, a.fields[k], b.fields[k], other, refs);
    }
  }

  lemma {:induction false} MembersIgnoreShuffling(config: Config, a: Json, b: Json, root: Json, other: Json, refs: set<RefKey>)
    requires Injective(config)
    requires a.Obj? && Shuffled(a, b) && ShuffledDefinitions(root, other)
    ensures Members(config, a, root, refs).Keys == Members(config, b, other, refs).Keys
    ensures forall k :: k in Members(config, a, root, refs) ==>
              FinishAlike(config, k, Members(config, a, root, refs)[k], Members(config, b, other, refs)[k])
    ensures Reference(a).Some? ==> Members(config, a, root, refs) == Members(config, b, other, refs)
    decreases Fresh(config, root, refs), a, 1
  {
    var left, right := Members(config, a, root, refs), Members(config, b, other, refs);
    forall k ensures k in left <==> k in right {
      assert k in a.fields <==> k in b.fields;
    }
    forall k | k in left
      ensures FinishAlike(config, k, left[k], right[k]) && (Reference(a).Some? ==> left[k] == right[k])
    {
      MemberIgnoresShuffling(config, a, b, k, root, other, refs);
    }
  }

  /** So permuting `required` and `enum` arrays anywhere in a schema, its definitions included, changes
      neither success nor canonical form. */
  lemma CanonicalSchemaIgnoresShuffling(config: Config, a: Json, b: Json)
    requires Injective(config)
    requires Shuffled(a, b)
    ensures CanonicalSchema(config, a) == CanonicalSchema(config, b)
  {
    ShuffledRoots(a, b);
    CanonIgnoresShuffling(config, a, b, a, b, {});
  }

  // ---------------------------------------------------------------- what canonical forms forget

  /** Ignored keywords leave no trace, wherever an object has one: also where the object is the
      value of `properties` and the keyword is the name of a property. */
  lemma IgnoredMemberIsForgotten(config: Config, fields: map<string, Json>, key: string, root: Json, refs: set<RefKey>)
    requires Ignored(key)
    ensures Canon(config, Obj(fields), root, refs) == Canon(config, Obj(fields - {key}), root, refs)
  {
    var with, without := Obj(fields), Obj(fields - {key});
    assert Reference(with) == Reference(without);
    OnlyVisitedMembersMatter(config, with, without, root, refs);
  }
}
