/** `canonical_schema_with_root` as written: a mutable reference set and loops that fill `normalized`. */
module CanonicalLoop {
  import opened JsonValues
  import opened Canonical

  class References {
    var keys: set<RefKey>

    constructor ()
      ensures keys == {}
    {
      keys := {};
    }
  }

  /** The finished part of `normalized`: `base` overlaid with the results of the members not in `rest`. */
  ghost predicate Overlaid(config: Config, finish: bool, base: map<string, Json>, members: map<string, Result<Json>>, rest: set<string>,
                           normalized: map<string, Json>)
  {
    && (forall k :: k in members && k !in rest ==>
          members[k].Ok? && k in normalized
          && normalized[k] == if finish then Finish(config, k, members[k].value) else members[k].value)
    && (forall k :: k in base && !(k in members && k !in rest) ==> k in normalized && normalized[k] == base[k])
    && (forall k :: k in normalized ==> k in base || (k in members && k !in rest))
  }

  /** Computes the canonical form. A successful call leaves the reference set as it found it. */
  method CanonicalSchemaWithRoot(config: Config, schema: Json, root: Json, references: References) returns (r: Result<Json>)
    modifies references
    ensures r == Canon(config, schema, root, old(references.keys))
    ensures r.Ok? ==> references.keys == old(references.keys)
    decreases Fresh(config, root, references.keys), schema, 2
  {
    CanonUnfolds(config, schema, root, references.keys);
    if schema.Obj? {
      if Reference(schema).Some? {
        var target := FollowReference(config, schema, root, references);
        if target.Err? {
          return Err;
        }
        r := OverlayMembers(config, schema, root, references, target);
      } else {
        r := NormalizeMembers(config, schema, root, references);
      }
    } else if schema.Arr? {
      r := NormalizeItems(config, schema, root, references);
    } else {
      r := Ok(schema);
    }
  }

  /** Pushes the key, canonicalises the target, and on success pops the key. */
  method FollowReference(config: Config, schema: Json, root: Json, references: References) returns (r: Result<Json>)
    requires schema.Obj? && Reference(schema).Some?
    modifies references
    ensures r == Followed(config, Reference(schema).value, root, old(references.keys))
    ensures r.Ok? ==> references.keys == old(references.keys)
    decreases Fresh(config, root, references.keys), schema, 1
  {
    var resolved := Resolve(config, Reference(schema).value, root);
    if resolved.None? || resolved.value.key in references.keys {
      return Err;
    }
    var t := resolved.value;
    ghost var refs := references.keys;
    ResolveDescends(config, Reference(schema).value, root, refs);
    assert Followed(config, Reference(schema).value, root, refs) == Canon(config, t.schema, t.root, refs + {t.key});
    assert refs + {t.key} - {t.key} == refs;
    references.keys := references.keys + {t.key};
    r := CanonicalSchemaWithRoot(config, t.schema, t.root, references);
    if r.Ok? {
      references.keys := references.keys - {t.key};
    }
  }

  method OverlayMembers(config: Config, schema: Json, root: Json, references: References, target: Result<Json>) returns (r: Result<Json>)
    requires schema.Obj? && Reference(schema).Some?
    modifies references
    ensures r == JoinReference(target, Members(config, schema, root, old(references.keys)))
    ensures r.Ok? ==> references.keys == old(references.keys)
    decreases Fresh(config, root, references.keys), schema, 1
  {
    if target.Err? || !target.value.Obj? {
      return Err;
    }
    var normalized := target.value.fields;
    var rest := schema.fields.Keys;
    ghost var refs := references.keys;
    ghost var members := Members(config, schema, root, refs);
    while rest != {}
      invariant rest <= schema.fields.Keys && references.keys == refs
      invariant Overlaid(config, false, target.value.fields, members, rest, normalized)
    {
      var key :| key in rest;
      rest := rest - {key};
      if KeptBeside(key) {
        var value := NormalizeMember(config, schema, key, root, references, members);
        if value.Err? {
          return Err;
        }
        normalized := normalized[key := value.value];
      }
    }
    assert normalized == target.value.fields + Values(members);
    r := Ok(Obj(normalized));
  }

  method NormalizeMember(config: Config, schema: Json, key: string, root: Json, references: References,
                         ghost members: map<string, Result<Json>>) returns (value: Result<Json>)
    requires schema.Obj? && key in schema.fields && Visited(schema, key)
    requires members == Members(config, schema, root, references.keys)
    modifies references
    ensures key in members && value == members[key]
    ensures value.Ok? ==> references.keys == old(references.keys)
    decreases Fresh(config, root, references.keys), schema, 0
  {
    value := CanonicalSchemaWithRoot(config, schema.fields[key], root, references);
  }

  method NormalizeMembers(config: Config, schema: Json, root: Json, references: References) returns (r: Result<Json>)
    requires schema.Obj? && Reference(schema).None?
    modifies references
    ensures r == JoinMembers(config, Members(config, schema, root, old(references.keys)))
    ensures r.Ok? ==> references.keys == old(references.keys)
    decreases Fresh(config, root, references.keys), schema, 1
  {
    var normalized := map[];
    var rest := schema.fields.Keys;
    ghost var refs := references.keys;
    ghost var members := Members(config, schema, root, refs);
    while rest != {}
      invariant rest <= schema.fields.Keys && references.keys == refs
      invariant Overlaid(config, true, map[], members, rest, normalized)
    {
      var key :| key in rest;
      rest := rest - {key};
      if Kept(key) {
        var value := NormalizeMember(config, schema, key, root, references, members);
        if value.Err? {
          return Err;
        }
        normalized := normalized[key := Finish(config, key, value.value)];
      }
    }
    assert normalized == JoinMembers(config, members).value.fields;
    r := Ok(Obj(normalized));
  }

  lemma ItemsJoin(results: seq<Result<Json>>, values: seq<Json>)
    requires |results| == |values| && forall i :: 0 <= i < |results| ==> results[i] == Ok(values[i])
    ensures JoinItems(results) == Ok(Arr(values))
  {
    assert JoinItems(results).value.items == values;
  }

  method NormalizeItems(config: Config, schema: Json, root: Json, references: References) returns (r: Result<Json>)
    requires schema.Arr?
    modifies references
    ensures r == JoinItems(Items(config, schema, root, old(references.keys)))
    ensures r.Ok? ==> references.keys == old(references.keys)
    decreases Fresh(config, root, references.keys), schema, 1
  {
    var values := [];
    ghost var refs := references.keys;
    ghost var results := Items(config, schema, root, refs);
    for i := 0 to |schema.items|
      invariant |values| == i && references.keys == refs
      invariant forall j :: 0 <= j < i ==> results[j] == Ok(values[j])
    {
      var value := NormalizeItem(config, schema, i, root, references, results);
      if value.Err? {
        return Err;
      }
      values := values + [value.value];
    }
    ItemsJoin(results, values);
    r := Ok(Arr(values));
  }

  method NormalizeItem(config: Config, schema: Json, index: nat, root: Json, references: References,
                       ghost results: seq<Result<Json>>) returns (value: Result<Json>)
    requires schema.Arr? && index < |schema.items|
    requires results == Items(config, schema, root, references.keys)
    modifies references
    ensures value == results[index]
    ensures value.Ok? ==> references.keys == old(references.keys)
    decreases Fresh(config, root, references.keys), schema, 0
  {
    value := CanonicalSchemaWithRoot(config, schema.items[index], root, references);
  }
}
