/** Schemas that are their own canonical form, and what forms forget. */
module CanonicalKernel {
  import opened JsonValues
  import opened Sorting
  import opened Canonical
  import opened CanonicalNormalForm

  /** Canonicalisation reaches no reference; references under dropped members do not count. */
  predicate Unreferenced(value: Json) {
    match value
    case Obj(fields) => Reference(value).None? && forall k | k in fields :: Kept(k) ==> Unreferenced(fields[k])
    case Arr(items) => forall i | 0 <= i < |items| :: Unreferenced(items[i])
    case _ => true
  }

  /** Members whose arrays are sets. */
  predicate Unordered(key: string) { key == "required" || key == "enum" }

  // ---------------------------------------------------------------- canonical forms without references

  /** The canonical form of a schema in which no reference is reached, by recursion on the schema. */
  function Form(config: Config, schema: Json): Json {
    match schema
    case Obj(fields) => Obj(map k | k in fields && Kept(k) :: Finish(config, k, Form(config, fields[k])))
    case Arr(items) => Arr(seq(|items|, i requires 0 <= i < |items| => Form(config, items[i])))
    case _ => schema
  }

  function FormOf(config: Config): Json -> Json { schema => Form(config, schema) }

  lemma {:induction false} UnreferencedCanon(config: Config, schema: Json, root: Json, refs: set<RefKey>)
    requires Unreferenced(schema)
    ensures Canon(config, schema, root, refs) == Ok(Form(config, schema))
    decreases schema
  {
    CanonUnfolds(config, schema, root, refs);
    if schema.Obj? {
      var members := Members(config, schema, root, refs);
      forall k | k in members ensures members[k] == Ok(Form(config, schema.fields[k])) {
        UnreferencedCanon(config, schema.fields[k], root, refs);
      }
      assert JoinMembers(config, members).value.fields == Form(config, schema).fields;
    } else if schema.Arr? {
      var results := Items(config, schema, root, refs);
      forall i | 0 <= i < |results| ensures results[i] == Ok(Form(config, schema.items[i])) {
        UnreferencedCanon(config, schema.items[i], root, refs);
      }
      assert JoinItems(results).value.items == Form(config, schema).items;
    }
  }

  lemma FormOfArray(config: Config, items: seq<Json>)
    ensures Form(config, Arr(items)) == Arr(Map(FormOf(config), items))
  {
    assert Form(config, Arr(items)).items == Map(FormOf(config), items);
  }

  // ---------------------------------------------------------------- schemas that are their own form

  /** Nothing to drop and nothing to sort, at any depth. */
  ghost predicate Normalised(config: Config, schema: Json) {
    match schema
    case Obj(fields) =>
      && (forall k :: k in fields ==> Kept(k) && Normalised(config, fields[k]))
      && (forall k :: k in fields && Unordered(k) && fields[k].Arr? ==> Sorted(ByText(config.render), fields[k].items))
    case Arr(items) => forall i :: 0 <= i < |items| ==> Normalised(config, items[i])
    case _ => true
  }

  /** The fixed points of canonicalisation are the normalised schemas. */
  lemma {:induction false} FormIsSchemaIff(config: Config, schema: Json)
    ensures Form(config, schema) == schema <==> Normalised(config, schema)
    decreases schema
  {
    if schema.Obj? {
      forall k | k in schema.fields ensures Form(config, schema.fields[k]) == schema.fields[k] <==> Normalised(config, schema.fields[k]) {
        FormIsSchemaIff(config, schema.fields[k]);
      }
      if Normalised(config, schema) {
        forall k | k in schema.fields ensures Finish(config, k, Form(config, schema.fields[k])) == schema.fields[k] {
          if Unordered(k) && schema.fields[k].Arr? {
            SortFixesSorted(ByText(config.render), schema.fields[k].items);
          }
        }
        assert Form(config, schema).fields == schema.fields;
      }
      if Form(config, schema) == schema {
        forall k | k in schema.fields
          ensures Kept(k) && Form(config, schema.fields[k]) == schema.fields[k]
          ensures Unordered(k) && schema.fields[k].Arr? ==> Sorted(ByText(config.render), schema.fields[k].items)
        {
          assert k in Form(config, schema).fields;
          FixedMember(config, k, schema.fields[k]);
        }
      }
    } else if schema.Arr? {
      forall i | 0 <= i < |schema.items| ensures Form(config, schema.items[i]) == schema.items[i] <==> Normalised(config, schema.items[i]) {
        FormIsSchemaIff(config, schema.items[i]);
      }
      var items := Form(config, schema).items;
      assert forall i :: 0 <= i < |items| ==> items[i] == Form(config, schema.items[i]);
      if Normalised(config, schema) {
        assert items == schema.items;
      }
      if Form(config, schema) == schema {
        forall i | 0 <= i < |items| ensures Form(config, schema.items[i]) == schema.items[i] { assert items[i] == schema.items[i]; }
      }
    }
  }

  lemma FixedMember(config: Config, key: string, value: Json)
    requires Finish(config, key, Form(config, value)) == value
    ensures Form(config, value) == value
    ensures Unordered(key) && value.Arr? ==> Sorted(ByText(config.render), value.items)
  {
    if Unordered(key) && value.Arr? {
      FormOfArray(config, value.items);
      FixedArray(config, value.items);
    }
  }

  lemma {:induction false} FixedArray(config: Config, items: seq<Json>)
    requires Sort(ByText(config.render), Map(FormOf(config), items)) == items
    ensures Map(FormOf(config), items) == items && Sorted(ByText(config.render), items)
  {
    TextOrderIsTotal(config.render);
    forall x ensures FormOf(config)(FormOf(config)(x)) == FormOf(config)(x) { FormTwice(config, x); }
    SortedImageIsFixed(ByText(config.render), FormOf(config), items);
  }

  /** An array that is the sorted image of itself under an idempotent function is fixed by both. */
  lemma {:induction false} SortedImageIsFixed<A(!new)>(le: (A, A) -> bool, f: A -> A, items: seq<A>)
    requires TotalPreorder(le) && (forall x :: f(f(x)) == f(x)) && Sort(le, Map(f, items)) == items
    ensures Map(f, items) == items && Sorted(le, items)
  {
    var image := Map(f, items);
    SortSorts(le, image);
    SortKeepsElements(le, image);
    forall i | 0 <= i < |items| ensures image[i] == items[i] {
      assert items[i] in multiset(image);
      var j :| 0 <= j < |image| && image[j] == items[i];
      assert f(f(items[j])) == f(items[j]);
    }
  }

  lemma {:induction false} FormTwice(config: Config, schema: Json)
    ensures Form(config, Form(config, schema)) == Form(config, schema)
    decreases schema
  {
    if schema.Obj? {
      var once := Form(config, schema);
      forall k | k in once.fields ensures Finish(config, k, Form(config, once.fields[k])) == once.fields[k] {
        FormTwice(config, schema.fields[k]);
        FinishTwice(config, k, Form(config, schema.fields[k]));
      }
      assert Form(config, once).fields == once.fields;
    } else if schema.Arr? {
      var once := Form(config, schema);
      forall i | 0 <= i < |once.items| ensures Form(config, once.items[i]) == once.items[i] {
        FormTwice(config, schema.items[i]);
      }
      assert Form(config, once).items == once.items;
    }
  }

  lemma FinishTwice(config: Config, key: string, value: Json)
    requires Form(config, value) == value
    ensures Finish(config, key, Form(config, Finish(config, key, value))) == Finish(config, key, value)
  {
    if Unordered(key) && value.Arr? {
      var le := ByText(config.render);
      var sorted := Sort(le, value.items);
      FormOfArray(config, value.items);
      FormOfArray(config, sorted);
      SortKeepsElements(le, value.items);
      forall i | 0 <= i < |sorted| ensures Form(config, sorted[i]) == sorted[i] {
        assert sorted[i] in multiset(value.items);
        var j :| 0 <= j < |value.items| && value.items[j] == sorted[i];
        assert Map(FormOf(config), value.items)[j] == value.items[j];
      }
      assert Map(FormOf(config), sorted) == sorted;
      TextOrderIsTotal(config.render);
      SortSorts(le, value.items);
      SortFixesSorted(le, sorted);
    }
  }

  lemma {:induction false} ReferenceFreeIsUnreferenced(schema: Json)
    requires ReferenceFree(schema)
    ensures Unreferenced(schema)
    decreases schema
  {
    if schema.Obj? {
      forall k | k in schema.fields ensures Unreferenced(schema.fields[k]) { ReferenceFreeIsUnreferenced(schema.fields[k]); }
    } else if schema.Arr? {
      forall i | 0 <= i < |schema.items| ensures Unreferenced(schema.items[i]) { ReferenceFreeIsUnreferenced(schema.items[i]); }
    }
  }

  /** A schema is its own canonical form exactly when it has no reference, no dropped member, and sorted
      `required` and `enum` arrays. */
  lemma OwnFormIff(config: Config, schema: Json)
    ensures CanonicalSchema(config, schema) == Ok(schema) <==> ReferenceFree(schema) && Normalised(config, schema)
  {
    if CanonicalSchema(config, schema) == Ok(schema) {
      CanonIsReferenceFree(config, schema, schema, {});
    }
    if ReferenceFree(schema) {
      ReferenceFreeIsUnreferenced(schema);
      UnreferencedCanon(config, schema, schema, {});
      FormIsSchemaIff(config, schema);
    }
  }

  /** Among those, equal canonical forms mean equal schemas. */
  lemma EqualFormsMeanEqualSchemas(config: Config, a: Json, b: Json)
    requires ReferenceFree(a) && Normalised(config, a) && ReferenceFree(b) && Normalised(config, b)
    ensures CanonicalSchema(config, a) == CanonicalSchema(config, b) <==> a == b
  {
    OwnFormIff(config, a);
    OwnFormIff(config, b);
  }

  /** An object schema with these property schemas. */
  function WithProperties(properties: Json): Json { Obj(map["properties" := properties]) }

  lemma WithPropertiesForm(config: Config, properties: Json)
    requires Unreferenced(properties)
    ensures Unreferenced(WithProperties(properties))
    ensures Form(config, WithProperties(properties)) == WithProperties(Form(config, properties))
  {
    assert Form(config, WithProperties(properties)).fields == map["properties" := Form(config, properties)];
  }

  lemma OnlyTitleForm(config: Config, title: Json)
    ensures Unreferenced(Obj(map["title" := title])) && Unreferenced(Obj(map[]))
    ensures Form(config, Obj(map["title" := title])) == Form(config, Obj(map[]))
  {
    assert Form(config, Obj(map["title" := title])).fields == Form(config, Obj(map[])).fields;
  }

  /** Otherwise they may differ where it matters: an object that constrains a property called `title`
      and one that does not have the same canonical form. */
  lemma PropertyNamedTitleIsForgotten(config: Config, title: Json, root: Json, refs: set<RefKey>)
    ensures Canon(config, WithProperties(Obj(map["title" := title])), root, refs) == Canon(config, WithProperties(Obj(map[])), root, refs)
  {
    OnlyTitleForm(config, title);
    WithPropertiesForm(config, Obj(map["title" := title]));
    WithPropertiesForm(config, Obj(map[]));
    UnreferencedCanon(config, WithProperties(Obj(map["title" := title])), root, refs);
    UnreferencedCanon(config, WithProperties(Obj(map[])), root, refs);
  }
}
